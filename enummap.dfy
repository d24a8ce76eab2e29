/**
 * `EnumMapSerializer`: the codec for `java.util.EnumMap`. The record is the
 * key enum class, the number of entries as a varint, then each entry as its
 * key's ordinal (varint) followed by its value written class-tagged, in
 * ordinal order. An empty map cannot be written, since its key class is
 * taken from a present key; a copy takes the key class from the live map and
 * so works for an empty map too.
 */
module EnumMaps {
  import opened Java
  import opened Kryo

  /** An enum constant: its declaring enum class and its ordinal. */
  datatype Constant = Constant(declaringClass: JClass, ordinal: nat)

  /** Whether `key` is one of the constants of its declaring class. */
  predicate IsConstant(key: Constant) {
    key.declaringClass.EnumClass? && key.ordinal < key.declaringClass.constantCount
  }

  /** What an `EnumMap` holds for one constant. */
  datatype Slot = Absent | Present(value: Value)

  /** The slots of a map with no entries over `n` constants. */
  function NoEntries(n: nat): (slots: seq<Slot>)
    ensures |slots| == n && forall o :: 0 <= o < n ==> slots[o] == Absent
  {
    seq(n, _ => Absent)
  }

  /**
   * The entries of a map in iteration order (ascending ordinal): the pairs
   * (o, v) with slot o holding v, and nothing else.
   */
  function Entries(slots: seq<Slot>): (es: seq<(Length, Value)>)
    requires |slots| < 0x8000_0000
    ensures |es| <= |slots|
    ensures forall i :: 0 <= i < |es| ==> es[i].0 < |slots|
  {
    if slots == [] then []
    else
      var last := |slots| - 1;
      var front := Entries(slots[..last]);
      if slots[last].Present? then front + [(last, slots[last].value)] else front
  }

  /**
   * The entries are exactly the present slots, each with its value, in
   * strictly ascending ordinal order.
   */
  lemma {:induction false} EntriesAreSlots(slots: seq<Slot>)
    requires |slots| < 0x8000_0000
    ensures var es := Entries(slots);
      && (forall i :: 0 <= i < |es| ==> slots[es[i].0] == Present(es[i].1))
      && (forall i, j :: 0 <= i < j < |es| ==> es[i].0 < es[j].0)
      && (forall o :: 0 <= o < |slots| && slots[o].Present? ==> exists i :: 0 <= i < |es| && es[i].0 == o)
  {
    if slots != [] {
      var last := |slots| - 1;
      var front := slots[..last];
      EntriesAreSlots(front);
      var fs := Entries(front);
      var es := Entries(slots);
      assert forall o :: 0 <= o < last ==> front[o] == slots[o];
      if slots[last].Present? {
        assert es == fs + [(last, slots[last].value)];
        forall o | 0 <= o < |slots| && slots[o].Present?
          ensures exists i :: 0 <= i < |es| && es[i].0 == o
        {
          if o == last {
            assert es[|fs|].0 == o;
          } else {
            var i :| 0 <= i < |fs| && fs[i].0 == o;
            assert es[i] == fs[i];
          }
        }
      } else {
        assert es == fs;
      }
    }
  }

  /** `java.util.EnumMap`: a key enum class fixed at construction and one slot per constant. */
  class EnumMap {
    const keyType: JClass
    var slots: seq<Slot>

    ghost predicate Valid()
      reads this
    {
      keyType.EnumClass? && |slots| == keyType.constantCount
    }

    /** `new EnumMap(keyType)` */
    constructor (keyType: JClass)
      requires keyType.EnumClass?
      ensures Valid() && this.keyType == keyType && slots == NoEntries(keyType.constantCount)
    {
      this.keyType := keyType;
      slots := NoEntries(keyType.constantCount);
    }

    /** `new EnumMap(map)` for an `EnumMap` argument: same key class, same entries. */
    constructor Copying(original: EnumMap)
      requires original.Valid()
      ensures Valid() && keyType == original.keyType && slots == original.slots
    {
      keyType := original.keyType;
      slots := original.slots;
    }

    /** `size()` */
    function Size(): nat
      reads this
      requires Valid()
    {
      |Entries(slots)|
    }

    /**
     * `put(key, value)`: a key of another enum class is refused with
     * `ClassCastException`; otherwise the key's slot now holds the value.
     */
    method Put(key: Constant, v: Value) returns (r: Outcome)
      requires Valid() && IsConstant(key)
      modifies this
      ensures Valid()
      ensures r.Pass? <==> key.declaringClass == keyType
      ensures r.Fail? ==> r.error.ClassCastException? && slots == old(slots)
      ensures r.Pass? ==> slots == old(slots)[key.ordinal := Present(v)]
    {
      if key.declaringClass != keyType {
        return Fail(ClassCastException(Name(key.declaringClass) + " != " + Name(keyType)));
      }
      slots := slots[key.ordinal := Present(v)];
      r := Pass;
    }
  }

  /** The tokens of the entries, each its ordinal then its value. */
  function EntryTokens(es: seq<(Length, Value)>): (s: seq<Token>)
    ensures |s| == 2 * |es|
  {
    if es == [] then []
    else
      var last := es[|es| - 1];
      EntryTokens(es[..|es| - 1]) + [VarInt(last.0 as int32), ClassAndObject(last.1)]
  }

  /** Entry i sits at tokens 2i and 2i + 1. */
  lemma {:induction false} EntryTokensAt(es: seq<(Length, Value)>, i: nat)
    requires i < |es|
    ensures EntryTokens(es)[2 * i] == VarInt(es[i].0 as int32)
    ensures EntryTokens(es)[2 * i + 1] == ClassAndObject(es[i].1)
  {
    if i < |es| - 1 {
      EntryTokensAt(es[..|es| - 1], i);
    }
  }

  /** One more present slot adds its entry's two tokens at the end. */
  lemma EntryTokensAppend(slots: seq<Slot>, o: nat)
    requires o < |slots| < 0x8000_0000 && slots[o].Present?
    ensures EntryTokens(Entries(slots[..o + 1]))
      == EntryTokens(Entries(slots[..o])) + [VarInt(o as int32), ClassAndObject(slots[o].value)]
  {
    assert slots[..o + 1][..o] == slots[..o];
    var es := Entries(slots[..o]);
    assert Entries(slots[..o + 1]) == es + [(o, slots[o].value)];
    assert (es + [(o, slots[o].value)])[..|es|] == es;
  }

  /** An absent slot adds no entry. */
  lemma EntriesSkipAbsent(slots: seq<Slot>, o: nat)
    requires o < |slots| < 0x8000_0000 && slots[o].Absent?
    ensures Entries(slots[..o + 1]) == Entries(slots[..o])
  {
    assert slots[..o + 1][..o] == slots[..o];
  }

  /** The record `write` emits for a non-empty map. */
  function Record(keyType: JClass, slots: seq<Slot>): seq<Token>
    requires |slots| < 0x8000_0000
  {
    [ClassRef(keyType), VarInt(|Entries(slots)| as int32)] + EntryTokens(Entries(slots))
  }

  const EmptyMapError := KryoException("An EnumMap must not be empty to be serialized, the type can not be safely inferred.")

  /**
   * `write`: an empty map is refused before anything is emitted; otherwise the
   * key class, the entry count, then every entry in ordinal order.
   */
  method Write(output: Output, m: EnumMap) returns (r: Outcome)
    requires m.Valid()
    modifies output
    ensures m.Size() == 0 ==> r == Fail(EmptyMapError) && output.tokens == old(output.tokens)
    ensures m.Size() > 0 ==> r == Pass && output.tokens == old(output.tokens) + Record(m.keyType, m.slots)
  {
    if m.Size() == 0 {
      return Fail(EmptyMapError);
    }
    var slots := m.slots;
    // the declaring class of the first key is the map's key class
    var first := Entries(slots)[0];
    var key := Constant(m.keyType, first.0);
    output.WriteClass(key.declaringClass);
    output.WriteVarInt(m.Size() as int32);
    WriteEntries(output, slots);
    r := Pass;
  }

  /** The loop of `write`: every present slot, in ordinal order, as its ordinal and its value. */
  method WriteEntries(output: Output, slots: seq<Slot>)
    requires |slots| < 0x8000_0000
    modifies output
    ensures output.tokens == old(output.tokens) + EntryTokens(Entries(slots))
  {
    for o := 0 to |slots|
      invariant output.tokens == old(output.tokens) + EntryTokens(Entries(slots[..o]))
    {
      if slots[o].Present? {
        output.WriteVarInt(o as int32);
        output.WriteClassAndObject(slots[o].value);
        EntryTokensAppend(slots, o);
      } else {
        EntriesSkipAbsent(slots, o);
      }
    }
    assert slots[..|slots|] == slots;
  }

  /** The slots after putting each entry of `es` in turn: `put` semantics. */
  function PutAll(slots: seq<Slot>, es: seq<(Length, Value)>): (r: seq<Slot>)
    requires forall i :: 0 <= i < |es| ==> es[i].0 < |slots|
    ensures |r| == |slots|
  {
    if es == [] then slots
    else
      var last := es[|es| - 1];
      PutAll(slots, es[..|es| - 1])[last.0 := Present(last.1)]
  }

  /**
   * Reading `n` entries from `pos` into `slots`: each entry's ordinal must
   * index a constant, and its value is put at that slot.
   */
  function ReadEntries(s: seq<Token>, pos: nat, n: nat, slots: seq<Slot>): (r: Result<(seq<Slot>, nat)>)
    ensures r.Ok? ==> |r.value.0| == |slots| && r.value.1 == pos + 2 * n
    decreases n
  {
    if n == 0 then Ok((slots, pos))
    else
      var ordinal :- VarIntAt(s, pos);
      if !(0 <= ordinal.0 as int < |slots|) then Err(ArrayIndexOutOfBoundsException(ordinal.0 as int))
      else
        var v :- ClassAndObjectAt(s, ordinal.1);
        ReadEntries(s, v.1, n - 1, slots[ordinal.0 := Present(v.0)])
  }

  /**
   * What `read` makes of the stream from `pos`: the key class (a class that is
   * not an enum makes `new EnumMap` fail), the count (a negative count reads no
   * entries), then the entries into an empty map.
   */
  function Decode(s: seq<Token>, pos: nat): Result<((JClass, seq<Slot>), nat)> {
    var keyType :- ClassAt(s, pos);
    if !keyType.0.EnumClass? then Err(NullPointerException)
    else
      var size :- VarIntAt(s, keyType.1);
      var n := if size.0 < 0 then 0 else size.0 as nat;
      var entries :- ReadEntries(s, size.1, n, NoEntries(keyType.0.constantCount));
      Ok(((keyType.0, entries.0), entries.1))
  }

  /** An entry whose ordinal indexes no constant fails on `enumConstants[ordinal]`. */
  lemma ReadBadOrdinal(s: seq<Token>, pos: nat, n: nat, slots: seq<Slot>)
    requires n > 0 && pos < |s| && s[pos].VarInt?
    requires s[pos].n < 0 || s[pos].n as int >= |slots|
    ensures ReadEntries(s, pos, n, slots) == Err(ArrayIndexOutOfBoundsException(s[pos].n as int))
  {
  }

  /** A key class that is not an enum has no constants: `new EnumMap(keyType)` fails. */
  lemma ReadNotEnum(s: seq<Token>, pos: nat)
    requires pos < |s| && s[pos].ClassRef? && !s[pos].cls.EnumClass?
    ensures Decode(s, pos) == Err(NullPointerException)
  {
  }

  /** `read`: the key class, the count, then `size` puts keyed by `enumConstants[ordinal]`. */
  method Read(input: Input) returns (r: Result<EnumMap>)
    requires input.Valid()
    modifies input
    ensures input.Valid()
    ensures var expected := Decode(input.tokens, old(input.position));
      && (r.Ok? <==> expected.Ok?)
      && (r.Err? ==> r.error == expected.error)
      && (r.Ok? ==> fresh(r.value) && r.value.Valid()
                    && (r.value.keyType, r.value.slots) == expected.value.0
                    && input.position == expected.value.1)
  {
    ghost var start := input.position;
    var keyType := input.ReadClass();
    if keyType.Err? {
      return Err(keyType.error);
    }
    var t := keyType.value;
    if !t.EnumClass? {
      return Err(NullPointerException);
    }
    var result := new EnumMap(t);
    var size := input.ReadVarInt();
    if size.Err? {
      return Err(size.error);
    }
    ghost var n: nat := if size.value < 0 then 0 else size.value as nat;
    ghost var expected := ReadEntries(input.tokens, input.position, n, NoEntries(t.constantCount));
    var i: int32 := 0;
    while i < size.value
      invariant 0 <= i as int <= n
      invariant input.Valid() && fresh(result) && result.Valid() && result.keyType == t
      invariant ReadEntries(input.tokens, input.position, n - i as int, result.slots) == expected
    {
      var ordinal := input.ReadVarInt();
      if ordinal.Err? {
        return Err(ordinal.error);
      }
      if !(0 <= ordinal.value as int < t.constantCount) {
        return Err(ArrayIndexOutOfBoundsException(ordinal.value as int));
      }
      var key := Constant(t, ordinal.value as nat);
      var value := input.ReadClassAndObject();
      if value.Err? {
        return Err(value.error);
      }
      var _ := result.Put(key, value.value);
      i := i + 1;
    }
    r := Ok(result);
  }

  /** The slot a copy holds: the engine's copy of the original's value. */
  function CopySlot(slot: Slot): Slot {
    match slot
    case Absent => Absent
    case Present(v) => Present(DeepCopy(v))
  }

  /**
   * `copy`: a new map built from the original (so it keeps the key class even
   * when empty) whose every value is replaced by the engine's copy of it.
   */
  method Copy(original: EnumMap) returns (copy: EnumMap)
    requires original.Valid()
    ensures fresh(copy) && copy.Valid() && copy.keyType == original.keyType
    ensures |copy.slots| == |original.slots|
    ensures forall o :: 0 <= o < |copy.slots| ==> copy.slots[o] == CopySlot(original.slots[o])
  {
    copy := new EnumMap.Copying(original);
    for o := 0 to |original.slots|
      invariant fresh(copy) && copy.Valid() && copy.keyType == original.keyType
      invariant forall j :: 0 <= j < o ==> copy.slots[j] == CopySlot(original.slots[j])
      invariant forall j :: o <= j < |copy.slots| ==> copy.slots[j] == original.slots[j]
    {
      if original.slots[o].Present? {
        var _ := copy.Put(Constant(original.keyType, o), DeepCopy(original.slots[o].value));
      }
    }
  }

  /** The count `write` emits equals the number of (ordinal, value) pairs after it. */
  lemma RecordCount(keyType: JClass, slots: seq<Slot>)
    requires |slots| < 0x8000_0000
    ensures var rec := Record(keyType, slots);
      && rec[0] == ClassRef(keyType)
      && rec[1].VarInt? && rec[1].n as int * 2 == |rec| - 2
  {
  }

  /**
   * Reading the tokens of `es` after `k` of them were already put: the rest
   * are put in turn, and reading stops right after the last one.
   */
  lemma {:induction false} ReadEntriesOf(s: seq<Token>, pos: nat, es: seq<(Length, Value)>, slots: seq<Slot>, k: nat)
    requires k <= |es|
    requires forall i :: 0 <= i < |es| ==> es[i].0 < |slots|
    requires pos + 2 * |es| <= |s|
    requires forall i :: 0 <= i < |es| ==>
      s[pos + 2 * i] == VarInt(es[i].0 as int32) && s[pos + 2 * i + 1] == ClassAndObject(es[i].1)
    ensures ReadEntries(s, pos + 2 * k, |es| - k, PutAll(slots, es[..k])) == Ok((PutAll(slots, es), pos + 2 * |es|))
    decreases |es| - k
  {
    if k == |es| {
      assert es[..k] == es;
    } else {
      assert es[..k + 1][..k] == es[..k];
      ReadEntriesOf(s, pos, es, slots, k + 1);
    }
  }

  /** Reading the tokens of `es` puts every entry in turn and stops right after them. */
  lemma ReadAllEntries(s: seq<Token>, pos: nat, es: seq<(Length, Value)>, slots: seq<Slot>)
    requires forall i :: 0 <= i < |es| ==> es[i].0 < |slots|
    requires pos + 2 * |es| <= |s|
    requires forall i :: 0 <= i < |es| ==>
      s[pos + 2 * i] == VarInt(es[i].0 as int32) && s[pos + 2 * i + 1] == ClassAndObject(es[i].1)
    ensures ReadEntries(s, pos, |es|, slots) == Ok((PutAll(slots, es), pos + 2 * |es|))
  {
    ReadEntriesOf(s, pos, es, slots, 0);
    assert es[..0] == [];
  }

  /** Putting a map's entries into an empty map gives back that map. */
  lemma {:induction false} PutAllEntries(slots: seq<Slot>, o: nat)
    requires |slots| < 0x8000_0000 && o <= |slots|
    ensures PutAll(NoEntries(|slots|), Entries(slots[..o])) == slots[..o] + NoEntries(|slots| - o)
  {
    if o > 0 {
      var front := slots[..o - 1];
      assert slots[..o][..o - 1] == front;
      PutAllEntries(slots, o - 1);
      var es := Entries(slots[..o]);
      if slots[o - 1].Present? {
        assert es[..|es| - 1] == Entries(front);
      }
    }
  }

  /** `put` semantics: of several entries with one ordinal, the last one read wins. */
  lemma {:induction false} LastPutWins(slots: seq<Slot>, es: seq<(Length, Value)>, i: nat)
    requires forall j :: 0 <= j < |es| ==> es[j].0 < |slots|
    requires i < |es|
    requires forall j :: i < j < |es| ==> es[j].0 != es[i].0
    ensures PutAll(slots, es)[es[i].0] == Present(es[i].1)
  {
    if i < |es| - 1 {
      LastPutWins(slots, es[..|es| - 1], i);
    }
  }

  /**
   * Round trip: for a non-empty map, `read` of the record `write` emits,
   * wherever it sits in the stream, gives a map with the same key class and
   * the same entries, and stops right after the record.
   */
  lemma RoundTrip(keyType: JClass, slots: seq<Slot>, before: seq<Token>, after: seq<Token>)
    requires keyType.EnumClass? && |slots| == keyType.constantCount
    requires |Entries(slots)| > 0
    ensures Decode(before + Record(keyType, slots) + after, |before|)
      == Ok(((keyType, slots), |before| + |Record(keyType, slots)|))
  {
    var rec := Record(keyType, slots);
    var s := before + rec + after;
    assert s[|before|..|before| + |rec|] == rec;
    assert ClassAt(s, |before|) == Ok((keyType, |before| + 1));
    assert VarIntAt(s, |before| + 1) == Ok((|Entries(slots)| as int32, |before| + 2));
    ReadRecordEntries(s, |before|, keyType, slots);
  }

  /** Where a record sits in a stream, reading its entries into an empty map gives the map back. */
  lemma ReadRecordEntries(s: seq<Token>, start: nat, keyType: JClass, slots: seq<Slot>)
    requires |slots| < 0x8000_0000
    requires var rec := Record(keyType, slots); start + |rec| <= |s| && s[start..start + |rec|] == rec
    ensures ReadEntries(s, start + 2, |Entries(slots)|, NoEntries(|slots|))
      == Ok((slots, start + |Record(keyType, slots)|))
  {
    var es := Entries(slots);
    var rec := Record(keyType, slots);
    assert |rec| == 2 + 2 * |es|;
    assert ReadEntries(s, start + 2, |es|, NoEntries(|slots|))
        == Ok((PutAll(NoEntries(|slots|), es), start + |rec|)) by {
      EntriesIn(s, start, rec, es);
      ReadAllEntries(s, start + 2, es, NoEntries(|slots|));
    }
    assert PutAll(NoEntries(|slots|), es) == slots by {
      PutAllEntries(slots, |slots|);
      assert slots[..|slots|] == slots;
      assert slots + NoEntries(0) == slots;
    }
  }

  /** Where a record sits in a stream, its entries sit after its two header tokens. */
  lemma EntriesIn(s: seq<Token>, start: nat, rec: seq<Token>, es: seq<(Length, Value)>)
    requires start + |rec| <= |s| && s[start..start + |rec|] == rec
    requires |rec| == 2 + 2 * |es| && rec[2..] == EntryTokens(es)
    ensures forall i :: 0 <= i < |es| ==>
      s[start + 2 + 2 * i] == VarInt(es[i].0 as int32) && s[start + 2 + 2 * i + 1] == ClassAndObject(es[i].1)
  {
    forall i | 0 <= i < |es|
      ensures s[start + 2 + 2 * i] == VarInt(es[i].0 as int32) && s[start + 2 + 2 * i + 1] == ClassAndObject(es[i].1)
    {
      EntryTokensAt(es, i);
      assert s[start + 2 + 2 * i] == rec[2 + 2 * i] == EntryTokens(es)[2 * i];
      assert s[start + 2 + 2 * i + 1] == rec[2 + 2 * i + 1] == EntryTokens(es)[2 * i + 1];
    }
  }

  /** Writes a non-empty map to a fresh output and reads it back: same key class, same entries. */
  method WriteThenRead(m: EnumMap) returns (back: Result<EnumMap>)
    requires m.Valid() && m.Size() > 0
    ensures back.Ok? && back.value.keyType == m.keyType && back.value.slots == m.slots
  {
    var output := new Output();
    var _ := Write(output, m);
    var input := new Input(output.tokens);
    back := Read(input);
    RoundTrip(m.keyType, m.slots, [], []);
    assert output.tokens == [] + Record(m.keyType, m.slots) + [];
  }

  /**
   * A copy, even of an empty map, keeps the original's key class: putting a
   * constant of another enum into it is refused.
   */
  method CopyThenPutForeign(original: EnumMap, foreign: Constant) returns (r: Outcome)
    requires original.Valid() && IsConstant(foreign)
    requires foreign.declaringClass != original.keyType
    ensures r.Fail? && r.error.ClassCastException?
  {
    var copy := Copy(original);
    r := copy.Put(foreign, Null);
  }
}
