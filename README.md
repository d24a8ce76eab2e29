# Wrapper-container serializers for Kryo, modelled in Dafny

This project models the dorkbox serializers for "opaque wrapper" containers. Each one writes a small tagged or length-prefixed record and hands the nested values to the Kryo engine:

- `UnmodifiableCollectionsSerializer` and `SynchronizedCollectionsSerializer` handle the seven read-only and seven synchronized views that `java.util.Collections` hands out. Each record is the kind's ordinal followed by the hidden delegate, written class-tagged.
- `EnumMapSerializer` writes the key enum class, the entry count, then (ordinal, value) pairs. It refuses an empty map.
- `ArraysAsListSerializer` writes the length, a component class guessed from the first element, then every element class-tagged. On read it boxes a primitive component class.
- `IesParametersSerializer` writes two length-prefixed byte arrays and the MAC key size.
- `UUIDSerializer` writes the two 64-bit halves and is marked immutable.

Module layout:

- `Java` (java.dfy) holds the host-language values the serializers see:
  - classes, objects with named fields, and `null`;
  - the exceptions they throw;
  - `Result`/`Outcome` for "returns or throws".
- `Kryo` (kryo.dfy) makes the engine concrete as a stream of tokens.
  - Each engine call the serializers make appends one token (varint, fixed long, class, or class-tagged object) to an `Output`, except `writeBytes`, which appends one raw-byte token per byte.
  - The matching read on an `Input` consumes a token of that shape (`readBytes` one raw-byte token per byte of its buffer) or fails.
  - `Input` and `Output` are classes whose token sequence and cursor the serializers advance.
- Each serializer is one module with the same structure:
  - `Write` and `Read` methods advance the engine's output and input.
  - Each is proved equal to a specification function (`Written`/`Record` and `Decode`).
  - Lemmas about those functions state the layout, the error cases and the round trip. Each round trip holds wherever the record sits in the stream, and reading stops right after the record.

## Model

| member | source | states |
|---|---|---|
| Java.Rethrow | src/dorkbox/serializers/UnmodifiableCollectionsSerializer.java:177-183 | a runtime exception leaves unchanged; any other exception leaves wrapped exactly once in a `RuntimeException` |
| Kryo.Input.ReadBytes | src/dorkbox/serializers/bouncycastle/IesParametersSerializer.java:64 | fills the whole buffer with the next raw bytes in stream order and advances the cursor by the buffer's length, or fails on a short or mistyped stream |
| Kryo.DefaultCopy | src/dorkbox/serializers/UUIDSerializer.kt:10-12 | the engine's copy succeeds exactly when the serializer is immutable, and then returns the original; otherwise it fails with `KryoException` naming the serializer's class |
| UnmodifiableCollections.Ordinal | src/dorkbox/serializers/UnmodifiableCollectionsSerializer.java:200-271 | every kind has an ordinal inside `values()`, and `values()` at that ordinal is the kind |
| UnmodifiableCollections.Create | src/dorkbox/serializers/UnmodifiableCollectionsSerializer.java:200-271 | the factory succeeds exactly when the delegate implements the kind's interface; null is refused with `NullPointerException`; a view's class is the class of the kind the factory picks |
| UnmodifiableCollections.CreateThenGetValue | src/dorkbox/serializers/UnmodifiableCollectionsSerializer.java:200-271 | a view the factory made is classified as the kind of its class, and that kind's field extraction (`c` for collections, `m` for maps) gives back the delegate |
| UnmodifiableCollections.ValueOfType | src/dorkbox/serializers/UnmodifiableCollectionsSerializer.java:286-293 | returns the first kind in declaration order whose class equals the argument exactly; otherwise fails with `IllegalArgumentException` naming the class, and then no kind has that class |
| UnmodifiableCollections.ClassifyTypeOf | src/dorkbox/serializers/UnmodifiableCollectionsSerializer.java:286-291 | each kind's class is classified as that kind and no earlier one |
| UnmodifiableCollections.ClassifyUnbound | src/dorkbox/serializers/UnmodifiableCollectionsSerializer.java:292 | a class that no kind is bound to is refused with `IllegalArgumentException` |
| UnmodifiableCollections.NavigableSetRejected | src/dorkbox/serializers/UnmodifiableCollectionsSerializer.java:286-292 | there is no subtype match: the navigable-set view is a subclass of the sorted-set view's class and is still refused |
| UnmodifiableCollections.Write | src/dorkbox/serializers/UnmodifiableCollectionsSerializer.java:170-184 | appends exactly the kind's ordinal and then the class-tagged delegate, with failures rethrown as `Rethrow` prescribes |
| UnmodifiableCollections.WriteUnsupported | src/dorkbox/serializers/UnmodifiableCollectionsSerializer.java:172 | writing an object of an unbound class emits nothing and fails with `IllegalArgumentException` |
| UnmodifiableCollections.WriteInaccessible | src/dorkbox/serializers/UnmodifiableCollectionsSerializer.java:175-183 | when the hidden field cannot be read, the ordinal is already written and the checked exception leaves wrapped in a `RuntimeException` |
| UnmodifiableCollections.Read | src/dorkbox/serializers/UnmodifiableCollectionsSerializer.java:162-167 | reads the ordinal, indexes `values()`, reads a class-tagged delegate and re-wraps it; the result and cursor are those of `Decode` |
| UnmodifiableCollections.ReadBadOrdinal | src/dorkbox/serializers/UnmodifiableCollectionsSerializer.java:163-164 | an ordinal below 0 or from 7 up fails with `ArrayIndexOutOfBoundsException` at that index |
| UnmodifiableCollections.ReadWrongDelegate | src/dorkbox/serializers/UnmodifiableCollectionsSerializer.java:165-166 | the delegate is decoded with its own class tag, so a delegate of the wrong interface fails in the factory's cast |
| UnmodifiableCollections.RoundTrip | src/dorkbox/serializers/UnmodifiableCollectionsSerializer.java:162-176 | for every view the factories can make, `write` succeeds, and `read` of its record anywhere in a stream gives back the same view and stops right after it |
| UnmodifiableCollections.GetValue | src/dorkbox/serializers/UnmodifiableCollectionsSerializer.java:200-271 | the delegate is the view's `c` field for the collection kinds and its `m` field for the map kinds; extraction fails exactly when that field cannot be read, and then with the checked exception that `Rethrow` wraps |
| UnmodifiableCollections.Copy | src/dorkbox/serializers/UnmodifiableCollectionsSerializer.java:187-198 | every failure leaves as a runtime exception; an unbound class fails with `IllegalArgumentException`; a successful copy means the original was classified and its delegate extracted, and the copy is again a view of some kind |
| UnmodifiableCollections.CopyIsEqualView | src/dorkbox/serializers/UnmodifiableCollectionsSerializer.java:187-191 | `copy` of a view is the same kind wrapping the engine's copy of the delegate, which is an equal view |
| UnmodifiableCollections.WriteThenRead | src/dorkbox/serializers/UnmodifiableCollectionsSerializer.java:162-184 | a view written to a fresh output and read back is the factory's view again |
| UnmodifiableCollections.RegisterSerializers | src/dorkbox/serializers/UnmodifiableCollectionsSerializer.java:310-316 | every kind's class is bound to one shared serializer instance, and no other binding changes |
| SynchronizedCollections.Ordinal | src/dorkbox/serializers/SynchronizedCollectionsSerializer.java:201-272 | every kind has an ordinal inside `values()`, and `values()` at that ordinal is the kind |
| SynchronizedCollections.Create | src/dorkbox/serializers/SynchronizedCollectionsSerializer.java:201-272 | the factory succeeds exactly when the delegate implements the kind's interface; null is refused; a view's class is the class of the kind the factory picks |
| SynchronizedCollections.CreateThenGetValue | src/dorkbox/serializers/SynchronizedCollectionsSerializer.java:201-272 | a view the factory made is classified as the kind of its class; the collection kinds extract `c` and the map kinds `m`, which gives back the delegate |
| SynchronizedCollections.ValueOfType | src/dorkbox/serializers/SynchronizedCollectionsSerializer.java:286-293 | returns the first kind in declaration order whose class equals the argument exactly; otherwise fails with `IllegalArgumentException`, and then no kind has that class |
| SynchronizedCollections.ClassifyTypeOf | src/dorkbox/serializers/SynchronizedCollectionsSerializer.java:286-291 | each kind's class is classified as that kind and no earlier one |
| SynchronizedCollections.ClassifyUnbound | src/dorkbox/serializers/SynchronizedCollectionsSerializer.java:292 | a class that no kind is bound to is refused with `IllegalArgumentException` |
| SynchronizedCollections.NavigableSetRejected | src/dorkbox/serializers/SynchronizedCollectionsSerializer.java:286-292 | there is no subtype match: the navigable-set view is a subclass of the sorted-set view's class and is still refused |
| SynchronizedCollections.Write | src/dorkbox/serializers/SynchronizedCollectionsSerializer.java:170-185 | appends exactly the ordinal and then the class-tagged delegate, with failures rethrown as `Rethrow` prescribes; its steps are `WriteSteps` |
| SynchronizedCollections.WriteHoldsLock | src/dorkbox/serializers/SynchronizedCollectionsSerializer.java:174-177 | the ordinal is written before the lock is taken; the delegate is extracted exactly once and written only while the lock is held; the lock is released whether or not extraction fails; `write` succeeds exactly when the delegate was written |
| SynchronizedCollections.WriteUnsupported | src/dorkbox/serializers/SynchronizedCollectionsSerializer.java:172 | writing an object of an unbound class emits nothing and fails with `IllegalArgumentException` |
| SynchronizedCollections.WriteInaccessible | src/dorkbox/serializers/SynchronizedCollectionsSerializer.java:174-184 | when the hidden field cannot be read, the ordinal is already written and the checked exception leaves wrapped in a `RuntimeException` |
| SynchronizedCollections.Read | src/dorkbox/serializers/SynchronizedCollectionsSerializer.java:162-167 | reads the ordinal, indexes `values()`, reads a class-tagged delegate and re-wraps it; the result and cursor are those of `Decode` |
| SynchronizedCollections.ReadBadOrdinal | src/dorkbox/serializers/SynchronizedCollectionsSerializer.java:163-164 | an ordinal below 0 or from 7 up fails with `ArrayIndexOutOfBoundsException` |
| SynchronizedCollections.ReadWrongDelegate | src/dorkbox/serializers/SynchronizedCollectionsSerializer.java:165-166 | a delegate of the wrong interface fails in the factory's cast |
| SynchronizedCollections.RoundTrip | src/dorkbox/serializers/SynchronizedCollectionsSerializer.java:162-177 | for every view the factories can make, `write` succeeds, and `read` of its record anywhere in a stream gives back the same view and stops right after it |
| SynchronizedCollections.CopyIsEqualView | src/dorkbox/serializers/SynchronizedCollectionsSerializer.java:188-192 | what `copy` returns for a view is the same kind wrapping the engine's copy of the delegate, an equal view |
| SynchronizedCollections.GetValue | src/dorkbox/serializers/SynchronizedCollectionsSerializer.java:201-272 | the delegate is the view's `c` field for the collection kinds and its `m` field for the map kinds; extraction fails exactly when that field cannot be read, and then with the checked exception that `Rethrow` wraps |
| SynchronizedCollections.CopyResult | src/dorkbox/serializers/SynchronizedCollectionsSerializer.java:188-199 | every failure leaves as a runtime exception; an unbound class fails with `IllegalArgumentException`; a successful copy means the original was classified and its delegate extracted, and the copy is again a view of some kind |
| SynchronizedCollections.Copy | src/dorkbox/serializers/SynchronizedCollectionsSerializer.java:188-199 | returns `CopyResult`, and the steps it takes never acquire or release the view's lock (nor write anything); once classification succeeds it extracts the delegate exactly once, whether or not the copy then fails; an unbound class fails with `IllegalArgumentException` before any step |
| SynchronizedCollections.WriteThenRead | src/dorkbox/serializers/SynchronizedCollectionsSerializer.java:162-185 | a view written to a fresh output and read back is the factory's view again |
| SynchronizedCollections.RegisterSerializers | src/dorkbox/serializers/SynchronizedCollectionsSerializer.java:311-317 | all seven kinds' classes are bound to one serializer instance, and no other binding changes |
| EnumMaps.EntriesAreSlots | src/dorkbox/serializers/EnumMapSerializer.java:84-88 | the entries, in ascending ordinal order, are exactly the present slots with their values |
| EnumMaps.EnumMap.Put | src/dorkbox/serializers/EnumMapSerializer.java:47 | a key of another enum class is refused with `ClassCastException` and changes nothing; otherwise the key's slot holds the value and nothing else changes |
| EnumMaps.Write | src/dorkbox/serializers/EnumMapSerializer.java:73-90 | an empty map fails with `KryoException` and writes nothing; otherwise it appends the key class, the size and the entries |
| EnumMaps.WriteEntries | src/dorkbox/serializers/EnumMapSerializer.java:84-88 | appends, for each entry in ordinal order, its ordinal and then its class-tagged value |
| EnumMaps.RecordCount | src/dorkbox/serializers/EnumMapSerializer.java:83-88 | the count written equals the number of (ordinal, value) pairs that follow it |
| EnumMaps.ReadEntries | src/dorkbox/serializers/EnumMapSerializer.java:62-67 | reading `n` entries consumes exactly `2n` tokens and keeps one slot per constant |
| EnumMaps.ReadBadOrdinal | src/dorkbox/serializers/EnumMapSerializer.java:63-64 | an entry whose ordinal indexes no constant fails with `ArrayIndexOutOfBoundsException` at that ordinal |
| EnumMaps.ReadNotEnum | src/dorkbox/serializers/EnumMapSerializer.java:56-58 | a key class that is not an enum makes `new EnumMap` fail with `NullPointerException` |
| EnumMaps.Read | src/dorkbox/serializers/EnumMapSerializer.java:55-69 | reads the key class, creates an empty map of it, and puts `size` entries; the result and cursor are those of `Decode` |
| EnumMaps.LastPutWins | src/dorkbox/serializers/EnumMapSerializer.java:66 | after the puts of `read`, an ordinal's slot holds the value of its last entry |
| EnumMaps.RoundTrip | src/dorkbox/serializers/EnumMapSerializer.java:55-89 | `read` of a non-empty map's record, anywhere in a stream, gives the same key class and the same slots, and stops right after the record |
| EnumMaps.WriteThenRead | src/dorkbox/serializers/EnumMapSerializer.java:55-90 | a non-empty map written to a fresh output and read back has the same key class and the same entries |
| EnumMaps.Copy | src/dorkbox/serializers/EnumMapSerializer.java:42-50 | `copy` is a fresh map with the original's key class and, slot by slot, the engine's copy of each value |
| EnumMaps.CopyThenPutForeign | src/dorkbox/serializers/EnumMapSerializer.java:43-47 | a copy, even of an empty map, keeps the key class, so putting a constant of another enum into it fails with `ClassCastException` |
| ArraysAsList.Boxed | src/dorkbox/serializers/ArraysAsListSerializer.java:110-133 | each of the eight primitive types maps to a reference class, a subclass of `Object` |
| ArraysAsList.WrappersDistinct | src/dorkbox/serializers/ArraysAsListSerializer.java:107-136 | distinct primitive types get distinct wrapper classes, and no wrapper is named like its primitive |
| ArraysAsList.PrimitiveWrapperClass | src/dorkbox/serializers/ArraysAsListSerializer.java:107-136 | a primitive class maps to its wrapper; every other class, `void` included, maps to itself; the result is primitive only for `void` |
| ArraysAsList.Write | src/dorkbox/serializers/ArraysAsListSerializer.java:65-92 | appends the size; then the array's component class for an empty list, or the first element's class and every element in order; a null first element fails with `NullPointerException` after the size |
| ArraysAsList.Read | src/dorkbox/serializers/ArraysAsListSerializer.java:45-61 | reads the length and component class, boxes a primitive class, creates the array and fills it; the result is a list of exactly `Decode`'s elements |
| ArraysAsList.NewFilledArray | src/dorkbox/serializers/ArraysAsListSerializer.java:53-56 | the new array holds, at index i, the i-th decoded value, or the read fails as the specification of the elements says |
| ArraysAsList.Decode | src/dorkbox/serializers/ArraysAsListSerializer.java:46-57 | a successful read has a non-primitive (boxed) component class and only elements an array of that class can hold |
| ArraysAsList.DecodeRefusals | src/dorkbox/serializers/ArraysAsListSerializer.java:46-60 | a negative length fails with `NegativeArraySizeException`, and otherwise a `void` component with `IllegalArgumentException`, each wrapped in a `RuntimeException`; a stream too short for the header fails unwrapped |
| ArraysAsList.RoundTripEmpty | src/dorkbox/serializers/ArraysAsListSerializer.java:45-75 | an empty list comes back empty over the same (non-primitive) component class |
| ArraysAsList.RoundTrip | src/dorkbox/serializers/ArraysAsListSerializer.java:45-92 | a non-empty list comes back with the same length and elements in order exactly when every element is null or an instance of the first element's class; otherwise the read fails with the wrapped type mismatch |
| ArraysAsList.Copy | src/dorkbox/serializers/ArraysAsListSerializer.java:96-105 | `copy` is a fixed-size list over a fresh array with the same component class, the same length and the engine's copy of each element in order |
| ArraysAsList.WriteThenRead | src/dorkbox/serializers/ArraysAsListSerializer.java:45-92 | an empty list, or one whose elements are each null or an instance of the first element's class, written to a fresh output and read back has the same elements in order |
| IesParameters.Write | src/dorkbox/serializers/bouncycastle/IesParametersSerializer.java:33-53 | appends the derivation length, its bytes, the encoding length, its bytes and the MAC key size, in that order, and ends as `Written` says |
| IesParameters.WriteNullVector | src/dorkbox/serializers/bouncycastle/IesParametersSerializer.java:38-46 | a null derivation vector fails with `NullPointerException` before anything is written; a null encoding vector fails after the derivation's frame is written; `write` succeeds exactly when both vectors are arrays |
| IesParameters.PrefixesCountBytes | src/dorkbox/serializers/bouncycastle/IesParametersSerializer.java:38-52 | each length prefix equals the number of raw bytes after it, and the record holds nothing else but the MAC key size |
| IesParameters.ReadFramed | src/dorkbox/serializers/bouncycastle/IesParametersSerializer.java:62-64 | allocates an array of exactly the prefixed length, refuses a negative length, and fills the array from the input |
| IesParameters.Read | src/dorkbox/serializers/bouncycastle/IesParametersSerializer.java:58-75 | reads the fields in the order `write` produced them; the result and cursor are those of `Decode` |
| IesParameters.DecodeExact | src/dorkbox/serializers/bouncycastle/IesParametersSerializer.java:58-74 | a successful read consumed exactly the record `write` emits for what it returned |
| IesParameters.RoundTrip | src/dorkbox/serializers/bouncycastle/IesParametersSerializer.java:33-75 | for parameters whose vectors are not null, both vectors (empty ones too) and the MAC key size come back exactly, and reading stops right after the record, leaving what follows untouched |
| IesParameters.Copy | src/dorkbox/serializers/bouncycastle/IesParametersSerializer.java:29 | the serializer neither overrides `copy` nor is immutable, so the engine refuses to copy with `KryoException` naming `IesParametersSerializer` |
| IesParameters.WriteThenRead | src/dorkbox/serializers/bouncycastle/IesParametersSerializer.java:33-75 | parameters with both vectors, written to a fresh output, are read back unchanged |
| UUIDs.Write | src/dorkbox/serializers/UUIDSerializer.kt:14-17 | appends the most significant half and then the least significant half, each as a fixed long |
| UUIDs.Read | src/dorkbox/serializers/UUIDSerializer.kt:19-21 | takes the first long as the most significant half and the second as the least significant; it advances exactly two longs |
| UUIDs.Decode | src/dorkbox/serializers/UUIDSerializer.kt:19-21 | succeeds exactly when two fixed longs follow, and then consumed exactly the record `write` emits for the result |
| UUIDs.RoundTrip | src/dorkbox/serializers/UUIDSerializer.kt:14-21 | both halves come back exactly, and exactly two longs are consumed |
| UUIDs.Copy | src/dorkbox/serializers/UUIDSerializer.kt:10-12 | the serializer is immutable, so the engine's copy returns the same value |
| UUIDs.WriteThenRead | src/dorkbox/serializers/UUIDSerializer.kt:14-21 | a UUID written to a fresh output is read back unchanged |

## Left out

- Bytecode generation and reflection: the static initializers define accessor classes with Javassist (UnmodifiableCollectionsSerializer.java:79-159, SynchronizedCollectionsSerializer.java:80-159). Extraction is modelled as reading the view's hidden field (`c` or `m`). Only the map kinds read it through `Field.get`, which can throw `IllegalAccessException`. The collection kinds read the field directly and cannot fail that way. The model still gives `IllegalAccessException` for any kind whose view lacks the field, a case no real view of those classes reaches. A failing initializer is not modelled.
- The `dorkbox.updates.Updates` registration in the static initializers is a version-check side effect and is not modelled.
- The Kryo engine's byte layout is not modelled. Each call is one token, except `writeBytes`/`readBytes`, which are one raw-byte token per byte: varint bit patterns, class descriptors and class registration IDs do not appear. Shape mismatches and a short stream fail with `KryoException`. The engine's own write failures (buffer overflow and the like) are not modelled.
- `readClass` returning `null` for a null class tag is not modelled, so the `getType()` call on it, which throws `NullPointerException`, is not modelled either.
- Reference tracking (`kryo.reference` at ArraysAsListSerializer.java:99) and object identity are not modelled. `kryo.copy` is the identity on values, and it never fails. A copied element is therefore equal to the original, and aliasing between original and copy is not captured.
- ArraysAsList.Copy: a nested copy that fails is not modelled. An element whose serializer refuses to copy, such as `IESParameters`, would make `kryo.copy` throw `KryoException`. The `catch (Exception e)` at ArraysAsListSerializer.java:102-104 would then wrap it in a `RuntimeException`, runtime exceptions included. The model's `Copy` always returns a list.
- EnumMaps.Copy: a value whose nested copy fails is not modelled; the exception would leave `copy` unchanged. The model's `Copy` always returns a map.
- UnmodifiableCollections.Copy: a delegate whose nested copy fails is not modelled. The runtime exception would leave through the catch at UnmodifiableCollectionsSerializer.java:192-194 unchanged. The model fails only on an unbound class, an unreadable field or the factory's checks.
- SynchronizedCollections.Copy: as for the unmodifiable views, a delegate whose nested copy fails is not modelled.
- Locking is modelled only as the trace of steps that the `Write` and `Copy` methods return as they run (`Acquire`, `ExtractDelegate`, `WriteDelegate`, `Release`). The monitor, the mutex field of a synchronized view, and concurrent callers are not modelled.
- The JDK's own behaviour is modelled as JDK 8:
  - `Arrays$ArrayList.toArray()` keeps the array's component class; from JDK 9 on it returns `Object[]`, so an empty list's component class would be `Object`.
  - The factories wrap every delegate; the later-JDK shortcut that returns an already unmodifiable delegate unchanged is not modelled.
- ArraysAsList.RoundTrip: a component class that is primitive is not covered. The `write` side can only name a primitive component for an empty list over a primitive array, which `Arrays.asList` cannot build. The boxing on `read` is stated by `Decode` and `PrimitiveWrapperClass`.
- `IESParameters` copies its arrays defensively; values here are immutable sequences, so this is not visible.
- The serializers that only call a library parser or constructor (URI, File, Path, ZoneId, Regex, Inet4Address, Inet6Address), the registration lists in `SerializationDefaults` and the `SerializationManager` interface are not part of this model.
- Integer widths: lengths, sizes and ordinals are `int32` as in the source. The model covers byte arrays, lists and enum maps shorter than 2^31 elements, the range Java allows.
