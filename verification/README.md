# CompoundObject, modelled in Dafny

A model of ODSL's dynamic record `CompoundObject`, with proofs. The record is
a mutable map from string keys to untyped values. Typed writes store their
argument unchanged, and typed reads cast it back. To serialize itself onto a
Named encoder, the record writes a `keys` string array. It then writes a
`data` byte array: the bytes of a fresh nested encoder. A value whose class
has a registered serializer goes to it as a custom write; any other value goes
through a chain of independent `instanceof` tests, and a `Character`,
`char[]` or `Character[]` passes none of them and is not written. Reading reverses this, and
the Keyless form wraps the Named form in one byte-array field. Object reads
build nested objects by reflection, or by registered custom deserializers.
The array reads of Named and Keyless objects store the array they built.

The modules follow the structure of the class:

- `Outcome`: `Option`, `Result`, and the exceptions an operation can end in.
- `Values`: the closed set of storable values and their runtime classes.
- `Registry`: which classes have a custom serializer or deserializer.
- `Construction`: reflection and plug-ins as an oracle. An attempt yields an
  object, fails with an exception its catch clause names, or fails with one
  that escapes.
- `NamedCodec` and `KeylessCodec`: the two encoders, as far as the record
  uses them.
- `Record`: the map, the typed writes and reads, `getObjectCount` and
  `getKeys`.
- `Dispatch`: the serialize-time classification. The `instanceof` chain is
  a table of (test, write) lines. An independent description says what it
  writes per class, and a lemma proves the two agree.
- `Serial`: the Named and Keyless write and read, and the round trips.
- `Materialise`: the Named, Keyless, raw and custom object reads, and their
  array forms.

A few modelling choices:

- A runtime class is a `TypeId`. `isAssignableFrom` between two classes is
  class equality. An `instanceof` test or a cast to one of the library's
  interfaces checks the interfaces a declared class lists.
- The Named encoder is the log of writes it received; its bytes are that log
  (`Blob`).
- A decoder is the key -> value view of a log, where a later write wins and
  `getObject` returns the written value (an identity codec).
- HashMap iteration order is a parameter `order`. It must enumerate the key
  set, each key once.

Three behaviours of the code are easy to expect otherwise; the model follows
the code:

- Only the Named and Keyless array reads store what they built. The single
  object reads return a fresh object and leave the map as it was.
- `getKeys` returns the key set in the map's iteration order, not in write
  order.
- The outer `keys` array lists every key. The nested blob holds only the keys
  whose value some branch wrote. So a value no branch takes (a `Character`, a
  `char[]`) reads back as null (`Serial.InnerKeysMatchOuter`,
  `Serial.CharBreaksReserialisation`).

## Model

| member | source | states |
|---|---|---|
| Record.Put | src/main/java/com/github/nightfall/odsl/io/CompoundObject.java:36 | storing under a key changes that key's value and no other key, and raises the count exactly when the key is new |
| Record.WriteScalar | src/main/java/com/github/nightfall/odsl/io/CompoundObject.java:467-553 | a scalar write stores the boxed value under the name, leaves every other key alone, and the matching scalar read returns the written value |
| Record.WriteScalarArray | src/main/java/com/github/nightfall/odsl/io/CompoundObject.java:471-561 | both array overloads store the array unchanged; the boxed-array read returns a boxed array and fails with a cast error on a native one |
| Record.WriteString | src/main/java/com/github/nightfall/odsl/io/CompoundObject.java:563-565 | the string (or null) is stored and `readString` returns it |
| Record.WriteStringArray | src/main/java/com/github/nightfall/odsl/io/CompoundObject.java:567-569 | the string array is stored and `readStringArray` returns it |
| Record.WriteObject | src/main/java/com/github/nightfall/odsl/io/CompoundObject.java:571-613 | the compound, raw, Named, Keyless and custom object writes store the object unchanged and touch no other key; only the custom write, whose type parameter is unbounded, also accepts an array |
| Record.WriteObjectArray | src/main/java/com/github/nightfall/odsl/io/CompoundObject.java:575-617 | the object-array writes store the array unchanged and touch no other key |
| Record.ReadScalar | src/main/java/com/github/nightfall/odsl/io/CompoundObject.java:88-216 | the read succeeds exactly on a boxed scalar of the requested kind and returns its value; a missing key is a null dereference; anything else is a cast error |
| Record.ReadBoxedArray | src/main/java/com/github/nightfall/odsl/io/CompoundObject.java:94-222 | the boxed-array read succeeds exactly on null or a boxed array of the kind, and returns the stored value itself |
| Record.ReadString | src/main/java/com/github/nightfall/odsl/io/CompoundObject.java:233-236 | succeeds exactly on null or a string, returning it |
| Record.ReadStringArray | src/main/java/com/github/nightfall/odsl/io/CompoundObject.java:238-241 | succeeds exactly on null or a string array, returning it |
| Record.ReadArrayAsNative | src/main/java/com/github/nightfall/odsl/io/CompoundObject.java:99-230 | succeeds exactly when the stored value is a boxed array of the kind with no null element; the result has the same length, and its i-th element is the i-th boxed element's value |
| Record.GetKeys | src/main/java/com/github/nightfall/odsl/io/CompoundObject.java:619-627 | the key array has `getObjectCount()` entries, holds exactly the stored keys, and holds each once |
| Dispatch.CascadeIsExpected | src/main/java/com/github/nightfall/odsl/io/CompoundObject.java:664-704 | running the independent `if` lines over a class writes exactly what the per-class description says |
| Dispatch.CharHasNoBranch | src/main/java/com/github/nightfall/odsl/io/CompoundObject.java:664-704 | no line takes a `Character`, `char[]` or `Character[]` |
| Dispatch.LongIsWrittenTwice | src/main/java/com/github/nightfall/odsl/io/CompoundObject.java:672-682 | a `Long`, `long[]` or `Long[]` is written twice, once by each of the two identical blocks |
| Dispatch.CompoundIsWrittenTwice | src/main/java/com/github/nightfall/odsl/io/CompoundObject.java:699-702 | a nested compound record (or an array of them) is written by both the Named and the Keyless line |
| Dispatch.Forward | src/main/java/com/github/nightfall/odsl/io/CompoundObject.java:646-704 | null fails on `getClass`; a class whose component has a serializer goes only to the custom write chosen by array-ness (a native array fails the `Object[]` cast); every other value goes through the cascade; every write carries the key and the value unchanged, and some write happens exactly when the value is classified |
| Serial.ForwardAll | src/main/java/com/github/nightfall/odsl/io/CompoundObject.java:646-705 | the loop over the keys succeeds exactly when every value can be forwarded, and every nested write is of a listed key with that key's stored value |
| Serial.ForwardAllView | src/main/java/com/github/nightfall/odsl/io/CompoundObject.java:646-705 | a decoder over the nested encoder holds exactly the keys whose value was classified, each with its stored value, however often it was written |
| Serial.WriteNamed | src/main/java/com/github/nightfall/odsl/io/CompoundObject.java:637-708 | an empty record writes exactly an empty `keys` array and an empty `data` array; otherwise it writes `keys` (the key set, in iteration order) and then a `data` blob whose decoder holds exactly the classified values; it succeeds exactly when every value can be forwarded |
| Serial.PutEach | src/main/java/com/github/nightfall/odsl/io/CompoundObject.java:450-452 | the loop of puts gives every listed key the nested decoder's value, null for a key it lacks, and leaves every other key as it was |
| Serial.ReadNamed | src/main/java/com/github/nightfall/odsl/io/CompoundObject.java:445-454 | the read succeeds exactly when `keys` is a string array with no null entry and `data` decodes, and then overlays the nested decoder's values for the listed keys on the record; a `keys` of another class is a cast error, an undecodable `data` is malformed, a missing `keys` is a null dereference |
| Serial.NamedRoundTrip | src/main/java/com/github/nightfall/odsl/io/CompoundObject.java:445-454 | reading back what the record wrote restores every key: with its own value where a branch wrote it, null where none did |
| Serial.InnerKeysMatchOuter | src/main/java/com/github/nightfall/odsl/io/CompoundObject.java:644-707 | the nested blob holds the outer key set exactly when every stored value is classified |
| Serial.ToBytes | src/main/java/com/github/nightfall/odsl/io/CompoundObject.java:711-715 | `toBytes` succeeds exactly when the record is serializable, and its bytes start with the key list |
| Serial.FromBytes | src/main/java/com/github/nightfall/odsl/io/CompoundObject.java:40-71 | `fromBytes` (uncompressed) succeeds exactly when the bytes decode and the Named read over them succeeds; undecodable bytes are malformed; the new record holds exactly the listed keys, each with the nested decoder's value |
| Serial.BytesRoundTrip | src/main/java/com/github/nightfall/odsl/io/CompoundObject.java:49-71 | `fromBytes(toBytes())` gives the normalised record |
| Serial.WriteKeyless | src/main/java/com/github/nightfall/odsl/io/CompoundObject.java:630-634 | the Keyless write appends exactly one byte-array item holding the default Named bytes, and succeeds exactly when the record is serializable |
| Serial.ReadKeyless | src/main/java/com/github/nightfall/odsl/io/CompoundObject.java:456-460 | the Keyless read fails unless the next item is a byte array; on one, it succeeds exactly when the item's bytes decode and the Named read over them succeeds, gives that read's record, and consumes exactly the one item |
| Serial.KeylessRoundTrip | src/main/java/com/github/nightfall/odsl/io/CompoundObject.java:456-460 | a record written into a Keyless stream reads back, normalised, from exactly the one item it wrote |
| Serial.CharBreaksReserialisation | src/main/java/com/github/nightfall/odsl/io/CompoundObject.java:646-704 | a record holding a `Character` serializes, reads back with null under that key, and the record read back then fails to serialize |
| KeylessCodec.ByteArrayRoundTrip | src/main/java/com/github/nightfall/odsl/io/CompoundObject.java:630-634 | the next read of a Keyless stream returns the byte array written last and consumes one item |
| Materialise.ReadObject | src/main/java/com/github/nightfall/odsl/io/CompoundObject.java:299-316 | `readNamedObject`, and `readKeylessObject` and `readRawObject` by the same steps: a missing key is a null dereference; a value of the requested class comes back as it is; a class that cannot be constructed reads as null; a value that is not a decoder (or boxed bytes, for a raw read) is a cast error; otherwise the fresh object's read decides: the built object, null on a caught exception, an escape on any other |
| Materialise.Lenient | src/main/java/com/github/nightfall/odsl/io/CompoundObject.java:327-340 | the per-element loop with the catch inside fails exactly when some attempt escapes; otherwise each built element is kept and each caught one is null |
| Materialise.AllOrNothing | src/main/java/com/github/nightfall/odsl/io/CompoundObject.java:279-295 | the loop with the catch around it yields all built elements when every attempt builds, null when the first failure is caught, and an escape when it is not |
| Materialise.Strict | src/main/java/com/github/nightfall/odsl/io/CompoundObject.java:430-435 | the loop with no catch yields all built elements exactly when every read builds, and escapes otherwise |
| Materialise.Shortcut | src/main/java/com/github/nightfall/odsl/io/CompoundObject.java:322-323 | the common head of the array reads: null fails, a value that already is the requested array comes back as it is, and a non-array value read with a non-array class fails on a null component type |
| Materialise.ReadObjectArray | src/main/java/com/github/nightfall/odsl/io/CompoundObject.java:319-397 | the Named and Keyless array reads return a stored array of the class as it is, fail on a value that is not an array of decoders, and otherwise build each element leniently and store the built array under the name |
| Materialise.ReadRawObjectArray | src/main/java/com/github/nightfall/odsl/io/CompoundObject.java:273-296 | the raw array read returns an array of the class as it is, fails on a value that is not `Byte[][]`, and otherwise yields all built elements or null, never storing anything |
| Materialise.ReadCustomObject | src/main/java/com/github/nightfall/odsl/io/CompoundObject.java:400-416 | an unregistered class fails before the map is read; then null fails, a value of the class comes back, a non-decoder is a cast error, and otherwise the deserializer decides: its object, null on a caught exception, an escape on any other |
| Materialise.ReadCustomObjectArray | src/main/java/com/github/nightfall/odsl/io/CompoundObject.java:419-437 | an unregistered class fails first; then the common head, the cast to a decoder array, and a custom read per element where any failure escapes |
| Materialise.ReadCompoundObject | src/main/java/com/github/nightfall/odsl/io/CompoundObject.java:243-246 | a stored compound record comes back as it is; the read is the Named object read with the record's own class |
| Materialise.ReadCompoundObjectArray | src/main/java/com/github/nightfall/odsl/io/CompoundObject.java:248-251 | a stored compound array comes back as it is, the map unchanged; the read is the Named array read with the record's own class |
| Materialise.WrittenObjectReadsBack | src/main/java/com/github/nightfall/odsl/io/CompoundObject.java:299-303 | an object stored by a typed write comes back from the read of its own class, whatever reflection would do |
| Materialise.WrittenArrayReadsBack | src/main/java/com/github/nightfall/odsl/io/CompoundObject.java:319-323 | an object array stored by a typed write comes back from the array read of its component class, and the map keeps it |
| Materialise.MemoisedArrayIsStable | src/main/java/com/github/nightfall/odsl/io/CompoundObject.java:319-346 | after an array read that built its elements, a second read of the same class returns the same array and map without consulting reflection |
| Materialise.LoopsAgreeWhenAllBuilt | src/main/java/com/github/nightfall/odsl/io/CompoundObject.java:279-340 | when every attempt builds, the lenient, all-or-nothing and strict loops yield the same array |
| Materialise.RawEscapeIsLenientEscape | src/main/java/com/github/nightfall/odsl/io/CompoundObject.java:279-340 | an escape in the raw loop is an escape in the lenient loop; an escape in the lenient loop is an escape or a null in the raw loop |
| Materialise.WrittenCustomObjectReadsBack | src/main/java/com/github/nightfall/odsl/io/CompoundObject.java:610-612 | a value stored by `writeCustomObject`, an array included, comes back from `readCustomObject` of its own registered class, whatever the deserializer would do |
| Materialise.CompoundFeedsCustomDeserializer | src/main/java/com/github/nightfall/odsl/io/CompoundObject.java:409-415 | a stored compound record read as another registered class yields exactly the object that class's deserializer builds from it |
| Materialise.UnregisteredIgnoresRecord | src/main/java/com/github/nightfall/odsl/io/CompoundObject.java:400-420 | for an unregistered class, both custom reads fail identically whatever the record holds |
| Materialise.NestedCompoundSurvives | src/main/java/com/github/nightfall/odsl/io/CompoundObject.java:243-246 | under the identity codec, a compound record nested in another comes back from `fromBytes(toBytes())` as the value written, and `readCompoundObject` returns it |

## Left out

- Gzip and Base64 (`toCompressedBytes`, `toBase64`, `toCompressedBase64`, and the compressed branch of `fromBytes`): these are library calls with no logic of the record's own.
- The byte layout of the binary Named encoder: a Named encoder's bytes are the log of its writes. A byte array that no encoder produced, other than the empty one, is rejected as malformed.
- Subclassing: there are no subclasses. `isAssignableFrom` is class equality, and an interface test checks the interfaces a declared class lists.
- Aliasing: the array reads' `objs[i] = null` writes into the stored source array. Values here are immutable, so that write is invisible. When the read completes, the stored array is replaced by the result anyway. When a caught element is followed by one that escapes, the program never reaches the `put`, and its map keeps the source array with the caught elements nulled; the model's map is unchanged.
- A partially written target: when a value cannot be forwarded, the outer encoder has already received `keys`. The model returns only the exception.
- `NativeArrayUtil` is not part of this model. The conversion of `Byte[]` to `byte[]` inside raw reads is folded into the oracle's `fill`, so a null element there fails however the oracle says.
- The decoder that `read(INamedDeserializer)` is given is normally the binary Named decoder, which is not part of this model. Its `readStringArray("keys")` is modelled as a cast: null passes and another class is a cast error. Its `readByteArrayAsNative("data")` and `newInstance` are modelled together as `Decode`: an encoder's blob or an empty native `byte[]` decodes, and anything else, a missing field included, is malformed. A record used as the decoder would instead fail with a null dereference on a missing `data`, and with a cast error on a native `byte[]`. A key list with a null entry is rejected as malformed.
- The process-wide registry's registration and overwrite logic, the plug-in discovery that fills it, and its thread-safety. The registry is a parameter.
- The libgdx adapters: they are plug-ins, so they appear only through the `custom` oracle.
- Floating point: floats and doubles are opaque bit patterns.
- Serial.WriteNamed: a nested object counts as forwarded as it stands, and the nested encoder keeps it as written (the identity codec). The binary encoder instead serializes a nested compound record through that record's own `write`. So in the program, a nested record holding a null fails where the model succeeds, and a nested record holding a `Character` loses it, which the model does not show.
- Materialise.NestedCompoundSurvives: holds under the identity codec only. The program writes a nested record twice under one key, as a Named and as a Keyless object, and which of the two the binary decoder's `getObject` returns depends on the binary codec, which is not part of this model. Either way the program's result is not the value written: it is a record rebuilt through the nested `read`, or, if the Keyless form comes back, a cast error that no catch clause names.
- Serial.ToBytes: states the first field of the bytes; the second is stated by `Serial.WriteNamed`.
- Materialise.ReadObject: a fresh object's own `read` failing with `IllegalArgumentException`, `IOException` and the like is the oracle's `Caught`; which exceptions those are is not modelled.
