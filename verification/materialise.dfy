/** The object reads: a stored value that already has the requested class is
    returned as it is; otherwise a fresh object of the requested class is
    built from it (by reflection and the object's own `read`, or by a
    registered custom deserializer), under the catch clauses of the record. */
module Materialise {
  import opened Values
  import opened Outcome
  import opened Registry
  import opened Record
  import opened Construction
  import opened Dispatch
  import opened Serial

  /** What a fresh object reads itself from: the stored value cast to a Named
      decoder, to a Keyless decoder, or to the boxed bytes of a raw object. */
  datatype Source = NamedSource | KeylessSource | RawSource

  /** Whether the cast of a stored non-null value to the source of one
      element succeeds: `(INamedDeserializer) o`, `(IKeylessDeserializer) o`
      or `(Byte[]) o`. */
  predicate Readable(src: Source, o: Value)
    requires o != Null
  {
    match src
    case NamedSource => HasCap(ClassOf(o), NamedDeserializer)
    case KeylessSource => HasCap(ClassOf(o), KeylessDeserializer)
    case RawSource => ClassOf(o) == ArrayOf(Boxed(Byte))
  }

  /** Whether the cast of a stored non-null value to an array of sources
      succeeds: `(INamedDeserializer[]) o`, `(IKeylessDeserializer[]) o` or
      `(Byte[][]) o`. */
  predicate ArrayReadable(src: Source, o: Value)
    requires o != Null
  {
    match src
    case NamedSource => ClassOf(o).ArrayOf? && HasCap(ClassOf(o).elem, NamedDeserializer)
    case KeylessSource => ClassOf(o).ArrayOf? && HasCap(ClassOf(o).elem, KeylessDeserializer)
    case RawSource => ClassOf(o) == ArrayOf(ArrayOf(Boxed(Byte)))
  }

  /** Whether a single read of `o` as `t` reaches the fresh object's own
      `read`: the value is there, is not already a `t`, a `t` can be
      constructed, and the value casts to the source. */
  predicate BuildsFrom(o: Value, t: TypeId, oracle: Oracle, src: Source) {
    o != Null && ClassOf(o) != t && oracle.construct(t) && Readable(src, o)
  }

  /** `readNamedObject`, `readKeylessObject` and `readRawObject`: `o.getClass()`
      fails on a missing key; a value of class `t` is returned as it is;
      otherwise a fresh `t` is constructed (a failure is caught: null), the
      value is cast to the source (a failure escapes) and the fresh object
      reads itself from it. The map is never changed. */
  function ReadObject(r: Record, name: string, t: TypeId, oracle: Oracle, src: Source): (res: Result<Value>)
    ensures Get(r, name) == Null ==> res == Err(NullPointer)
    ensures Get(r, name) != Null && ClassOf(Get(r, name)) == t ==> res == Ok(Get(r, name))
    ensures Get(r, name) != Null && ClassOf(Get(r, name)) != t && !oracle.construct(t) ==> res == Ok(Null)
    ensures res == Err(ClassCast) <==>
              Get(r, name) != Null && ClassOf(Get(r, name)) != t && oracle.construct(t) && !Readable(src, Get(r, name))
    ensures res.Ok? ==>
              res.value == Get(r, name) || res.value == Null || oracle.fill(t, Get(r, name)) == Made(res.value)
    ensures res.Err? ==> res.fault in {NullPointer, ClassCast, Escaped}
    ensures BuildsFrom(Get(r, name), t, oracle, src) && oracle.fill(t, Get(r, name)).Made? ==>
              res == Ok(oracle.fill(t, Get(r, name)).obj)
    ensures BuildsFrom(Get(r, name), t, oracle, src) && oracle.fill(t, Get(r, name)).Caught? ==> res == Ok(Null)
    ensures BuildsFrom(Get(r, name), t, oracle, src) && oracle.fill(t, Get(r, name)).Thrown? ==> res == Err(Escaped)
  {
    var o := Get(r, name);
    if o == Null then Err(NullPointer)
    else if ClassOf(o) == t then Ok(o)
    else if !oracle.construct(t) then Ok(Null)
    else if !Readable(src, o) then Err(ClassCast)
    else Settle(oracle.fill(t, o))
  }

  /** The common head of every array read: `o.getClass()` fails on null; a
      value that already is a `t` array (`t` itself when `t` is an array
      class, `t[]` otherwise) is returned (`Some`); for a non-array `t`,
      `getComponentType()` of a non-array value is null, which
      `isAssignableFrom` dereferences. `None` continues the read. */
  function Shortcut(o: Value, t: TypeId): (res: Result<Option<Value>>)
    ensures o == Null ==> res == Err(NullPointer)
    ensures res.Ok? ==> o != Null
    ensures res == Ok(Some(o)) <==>
              o != Null && ((t.ArrayOf? && ClassOf(o) == t) || (!t.ArrayOf? && ClassOf(o) == ArrayOf(t)))
    ensures res.Ok? && res.value.Some? ==> res.value == Some(o)
    ensures res.Err? <==> o == Null || (!t.ArrayOf? && !ClassOf(o).ArrayOf?)
    ensures res.Err? ==> res.fault == NullPointer
  {
    if o == Null then Err(NullPointer)
    else if t.ArrayOf? && ClassOf(o) == t then Ok(Some(o))
    else if !t.ArrayOf? && !ClassOf(o).ArrayOf? then Err(NullPointer)
    else if !t.ArrayOf? && ClassOf(o).elem == t then Ok(Some(o))
    else Ok(None)
  }

  // ----- the per-element loops, over the outcome of each element's attempt

  /** The attempt for each element: construct a fresh `t` and let it read the
      element. */
  function Attempts(oracle: Oracle, t: TypeId, elems: seq<Value>): (bs: seq<Built>)
    ensures |bs| == |elems|
    ensures forall i :: 0 <= i < |elems| ==> bs[i] == Attempt(oracle, t, elems[i])
  {
    seq(|elems|, i requires 0 <= i < |elems| => Attempt(oracle, t, elems[i]))
  }

  /** The custom deserializer's read of each element. */
  function CustomReads(oracle: Oracle, t: TypeId, elems: seq<Value>): (bs: seq<Built>)
    ensures |bs| == |elems|
    ensures forall i :: 0 <= i < |elems| ==> bs[i] == oracle.custom(t, elems[i])
  {
    seq(|elems|, i requires 0 <= i < |elems| => oracle.custom(t, elems[i]))
  }

  /** The loop of `readNamedObjectArray` and `readKeylessObjectArray`: the
      catch clause is inside the loop, so an element whose attempt is caught
      is left null and the loop goes on; an uncaught one ends the read. */
  function Lenient(bs: seq<Built>): (res: Result<seq<Value>>)
    ensures res.Err? <==> exists i :: 0 <= i < |bs| && bs[i].Thrown?
    ensures res.Err? ==> res.fault == Escaped
    ensures res.Ok? ==> |res.value| == |bs|
    ensures res.Ok? ==> forall i :: 0 <= i < |bs| ==> bs[i].Made? ==> res.value[i] == bs[i].obj
    ensures res.Ok? ==> forall i :: 0 <= i < |bs| ==> bs[i].Caught? ==> res.value[i] == Null
    decreases |bs|
  {
    if bs == [] then Ok([])
    else if bs[0].Thrown? then Err(Escaped)
    else
      var rest :- Lenient(bs[1..]);
      Ok([if bs[0].Made? then bs[0].obj else Null] + rest)
  }

  /** The loop of `readRawObjectArray`: the catch clause is around the whole
      loop, so the first element whose attempt is caught makes the whole
      read null (`None`), and the first uncaught one ends the read. */
  function AllOrNothing(bs: seq<Built>): (res: Result<Option<seq<Value>>>)
    ensures res.Ok? && res.value.Some? <==> forall i :: 0 <= i < |bs| ==> bs[i].Made?
    ensures res.Ok? && res.value.Some? ==>
              |res.value.value| == |bs| && forall i :: 0 <= i < |bs| ==> res.value.value[i] == bs[i].obj
    ensures res == Ok(None) <==>
              exists i :: 0 <= i < |bs| && bs[i].Caught? && forall j :: 0 <= j < i ==> bs[j].Made?
    ensures res.Err? <==>
              exists i :: 0 <= i < |bs| && bs[i].Thrown? && forall j :: 0 <= j < i ==> bs[j].Made?
    ensures res.Err? ==> res.fault == Escaped
    decreases |bs|
  {
    if bs == [] then Ok(Some([]))
    else if bs[0].Caught? then Ok(None)
    else if bs[0].Thrown? then Err(Escaped)
    else
      var rest :- AllOrNothing(bs[1..]);
      match rest
      case None => Ok(None)
      case Some(vs) => Ok(Some([bs[0].obj] + vs))
  }

  /** The loop of `readCustomObjectArray`: there is no catch clause, so any
      failed element ends the read. */
  function Strict(bs: seq<Built>): (res: Result<seq<Value>>)
    ensures res.Ok? <==> forall i :: 0 <= i < |bs| ==> bs[i].Made?
    ensures res.Ok? ==> |res.value| == |bs| && forall i :: 0 <= i < |bs| ==> res.value[i] == bs[i].obj
    ensures res.Err? ==> res.fault == Escaped
    decreases |bs|
  {
    if bs == [] then Ok([])
    else if !bs[0].Made? then Err(Escaped)
    else
      var rest :- Strict(bs[1..]);
      Ok([bs[0].obj] + rest)
  }

  // ----- the array reads

  /** `readNamedObjectArray` and `readKeylessObjectArray`: after the common
      head, the value is cast to an array of decoders, a fresh `T[]` is filled
      element by element, and the filled array replaces the stored value
      (the returned record). */
  function ReadObjectArray(r: Record, name: string, t: TypeId, oracle: Oracle, src: Source): (res: Result<(Record, Value)>)
    requires src != RawSource
    ensures Shortcut(Get(r, name), t).Err? ==> res == Err(NullPointer)
    ensures Shortcut(Get(r, name), t) == Ok(Some(Get(r, name))) ==> res == Ok((r, Get(r, name)))
    ensures Shortcut(Get(r, name), t) == Ok(None) && !ArrayReadable(src, Get(r, name)) ==> res == Err(ClassCast)
    ensures Shortcut(Get(r, name), t) == Ok(None) && ArrayReadable(src, Get(r, name)) ==>
              match Lenient(Attempts(oracle, t, Get(r, name).elems))
              case Err(_) => res == Err(Escaped)
              case Ok(made) => res == Ok((r[name := Objects(t, made)], Objects(t, made)))
    ensures res.Ok? ==> res.value.0 == r || Stores(r, res.value.0, name, res.value.1)
  {
    var o := Get(r, name);
    var hit :- Shortcut(o, t);
    if hit.Some? then Ok((r, o))
    else if !ArrayReadable(src, o) then Err(ClassCast)
    else
      var made :- Lenient(Attempts(oracle, t, o.elems));
      var arr := Objects(t, made);
      Ok((Put(r, name, arr), arr))
  }

  /** `readRawObjectArray`: after the common head, the value is cast to
      `Byte[][]` (a failure escapes) and a fresh `T[]` is filled; a caught
      failure anywhere makes the whole result null. The map is never
      changed. */
  function ReadRawObjectArray(r: Record, name: string, t: TypeId, oracle: Oracle): (res: Result<Value>)
    ensures Shortcut(Get(r, name), t).Err? ==> res == Err(NullPointer)
    ensures Shortcut(Get(r, name), t) == Ok(Some(Get(r, name))) ==> res == Ok(Get(r, name))
    ensures Shortcut(Get(r, name), t) == Ok(None) && !ArrayReadable(RawSource, Get(r, name)) ==> res == Err(ClassCast)
    ensures Shortcut(Get(r, name), t) == Ok(None) && ArrayReadable(RawSource, Get(r, name)) ==>
              match AllOrNothing(Attempts(oracle, t, Get(r, name).elems))
              case Err(_) => res == Err(Escaped)
              case Ok(None) => res == Ok(Null)
              case Ok(Some(made)) => res == Ok(Objects(t, made))
  {
    var o := Get(r, name);
    var hit :- Shortcut(o, t);
    if hit.Some? then Ok(o)
    else if !ArrayReadable(RawSource, o) then Err(ClassCast)
    else
      var made :- AllOrNothing(Attempts(oracle, t, o.elems));
      match made
      case None => Ok(Null)
      case Some(vs) => Ok(Objects(t, vs))
  }

  // ----- the custom reads

  /** Whether a custom read of `o` as `t` reaches the registered
      deserializer: the class is registered, the value is there, is not
      already a `t`, and casts to a Named decoder. */
  predicate CustomBuildsFrom(reg: Registry, o: Value, t: TypeId) {
    HasDeserializer(reg, t) && o != Null && ClassOf(o) != t && Readable(NamedSource, o)
  }

  /** `readCustomObject`: a class without a registered deserializer fails
      before the map is consulted; then null fails, a value of class `t` is
      returned, any other is cast to a Named decoder (a failure escapes) and
      handed to the custom deserializer, whose caught failures read as
      null. */
  function ReadCustomObject(reg: Registry, r: Record, name: string, t: TypeId, oracle: Oracle): (res: Result<Value>)
    ensures !HasDeserializer(reg, t) ==> res == Err(Unregistered)
    ensures HasDeserializer(reg, t) && Get(r, name) == Null ==> res == Err(NullPointer)
    ensures HasDeserializer(reg, t) && Get(r, name) != Null && ClassOf(Get(r, name)) == t ==> res == Ok(Get(r, name))
    ensures res == Err(ClassCast) <==>
              HasDeserializer(reg, t) && Get(r, name) != Null && ClassOf(Get(r, name)) != t
              && !Readable(NamedSource, Get(r, name))
    ensures res.Ok? ==>
              res.value == Get(r, name) || res.value == Null || oracle.custom(t, Get(r, name)) == Made(res.value)
    ensures CustomBuildsFrom(reg, Get(r, name), t) && oracle.custom(t, Get(r, name)).Made? ==>
              res == Ok(oracle.custom(t, Get(r, name)).obj)
    ensures CustomBuildsFrom(reg, Get(r, name), t) && oracle.custom(t, Get(r, name)).Caught? ==> res == Ok(Null)
    ensures CustomBuildsFrom(reg, Get(r, name), t) && oracle.custom(t, Get(r, name)).Thrown? ==> res == Err(Escaped)
  {
    if !HasDeserializer(reg, t) then Err(Unregistered)
    else
      var o := Get(r, name);
      if o == Null then Err(NullPointer)
      else if ClassOf(o) == t then Ok(o)
      else if !Readable(NamedSource, o) then Err(ClassCast)
      else Settle(oracle.custom(t, o))
  }

  /** `readCustomObjectArray`: the registry check, the common head, the cast
      to `INamedDeserializer[]`, then one custom read per element with no
      catch clause at all. The map is never changed. */
  function ReadCustomObjectArray(reg: Registry, r: Record, name: string, t: TypeId, oracle: Oracle): (res: Result<Value>)
    ensures !HasDeserializer(reg, t) ==> res == Err(Unregistered)
    ensures HasDeserializer(reg, t) && Shortcut(Get(r, name), t).Err? ==> res == Err(NullPointer)
    ensures HasDeserializer(reg, t) && Shortcut(Get(r, name), t) == Ok(Some(Get(r, name))) ==> res == Ok(Get(r, name))
    ensures HasDeserializer(reg, t) && Shortcut(Get(r, name), t) == Ok(None) && !ArrayReadable(NamedSource, Get(r, name)) ==>
              res == Err(ClassCast)
    ensures HasDeserializer(reg, t) && Shortcut(Get(r, name), t) == Ok(None) && ArrayReadable(NamedSource, Get(r, name)) ==>
              match Strict(CustomReads(oracle, t, Get(r, name).elems))
              case Err(_) => res == Err(Escaped)
              case Ok(made) => res == Ok(Objects(t, made))
  {
    if !HasDeserializer(reg, t) then Err(Unregistered)
    else
      var o := Get(r, name);
      var hit :- Shortcut(o, t);
      if hit.Some? then Ok(o)
      else if !ArrayReadable(NamedSource, o) then Err(ClassCast)
      else
        var made :- Strict(CustomReads(oracle, t, o.elems));
        Ok(Objects(t, made))
  }

  // ----- CompoundObject's own shorthands

  /** `readCompoundObject`: `readNamedObject` with the record's own class. */
  function ReadCompoundObject(r: Record, name: string, oracle: Oracle): (res: Result<Value>)
    ensures Get(r, name) != Null && ClassOf(Get(r, name)) == CompoundType ==> res == Ok(Get(r, name))
    ensures res == ReadObject(r, name, CompoundType, oracle, NamedSource)
  {
    ReadObject(r, name, CompoundType, oracle, NamedSource)
  }

  /** `readCompoundObjectArray`: `readNamedObjectArray` with the record's own
      class. */
  function ReadCompoundObjectArray(r: Record, name: string, oracle: Oracle): (res: Result<(Record, Value)>)
    ensures Get(r, name) != Null && ClassOf(Get(r, name)) == ArrayOf(CompoundType) ==> res == Ok((r, Get(r, name)))
    ensures res == ReadObjectArray(r, name, CompoundType, oracle, NamedSource)
  {
    ReadObjectArray(r, name, CompoundType, oracle, NamedSource)
  }

  // ----- properties

  /** An object stored by a typed write comes back from the read of its own
      class as it is, whatever reflection would do, and the map is left as
      the write made it. */
  lemma WrittenObjectReadsBack(r: Record, name: string, family: ObjectFamily, obj: Value, oracle: Oracle, src: Source)
    requires obj != Null && !ClassOf(obj).ArrayOf? && InFamily(ClassOf(obj), family)
    ensures ReadObject(WriteObject(r, name, family, obj), name, ClassOf(obj), oracle, src) == Ok(obj)
  {
  }

  /** An object array stored by a typed write comes back from the array read
      of its component class as it is, and the map keeps it. */
  lemma WrittenArrayReadsBack(r: Record, name: string, family: ObjectFamily, arr: Value, oracle: Oracle, src: Source)
    requires src != RawSource
    requires arr != Null && arr.Objects? && InFamily(arr.comp, family) && !arr.comp.ArrayOf?
    ensures ReadObjectArray(WriteObjectArray(r, name, family, arr), name, arr.comp, oracle, src)
         == Ok((WriteObjectArray(r, name, family, arr), arr))
  {
  }

  /** A Named or Keyless array read that had to build its objects stores the
      built array, so a second read of the same class returns that array
      without building anything: the oracle it is given plays no part. */
  lemma MemoisedArrayIsStable(r: Record, name: string, t: TypeId, oracle: Oracle, later: Oracle, src: Source)
    requires src != RawSource && !t.ArrayOf?
    requires ReadObjectArray(r, name, t, oracle, src).Ok?
    ensures ReadObjectArray(ReadObjectArray(r, name, t, oracle, src).value.0, name, t, later, src)
         == ReadObjectArray(r, name, t, oracle, src)
  {
  }

  /** When every attempt builds its object, the three loops agree: each
      yields the built objects in order. */
  lemma LoopsAgreeWhenAllBuilt(bs: seq<Built>)
    requires forall i :: 0 <= i < |bs| ==> bs[i].Made?
    ensures Lenient(bs).Ok? && AllOrNothing(bs).Ok? && AllOrNothing(bs).value.Some? && Strict(bs).Ok?
    ensures Lenient(bs).value == AllOrNothing(bs).value.value == Strict(bs).value
  {
  }

  /** An escape in the raw loop is an escape in the Named loop; an escape in
      the Named loop ends the raw loop with an escape or with null. */
  lemma RawEscapeIsLenientEscape(bs: seq<Built>)
    ensures Lenient(bs).Err? ==> AllOrNothing(bs).Err? || AllOrNothing(bs) == Ok(None)
    ensures AllOrNothing(bs).Err? ==> Lenient(bs).Err?
  {
  }

  /** A value stored by `writeCustomObject` comes back from
      `readCustomObject` of its own class once a deserializer is registered
      for it, whatever the deserializer would do. */
  lemma WrittenCustomObjectReadsBack(reg: Registry, r: Record, name: string, obj: Value, oracle: Oracle)
    requires obj != Null && InFamily(ClassOf(obj), CustomFamily)
    requires HasDeserializer(reg, ClassOf(obj))
    ensures ReadCustomObject(reg, WriteObject(r, name, CustomFamily, obj), name, ClassOf(obj), oracle) == Ok(obj)
  {
  }

  /** A compound record stored in another and read as a registered class
      `t` is handed, as a Named decoder, to `t`'s deserializer, and the read
      returns exactly what the deserializer builds. */
  lemma CompoundFeedsCustomDeserializer(reg: Registry, r: Record, name: string, t: TypeId, oracle: Oracle, v: Value)
    requires HasDeserializer(reg, t) && t != CompoundType
    requires Get(r, name) != Null && ClassOf(Get(r, name)) == CompoundType
    requires oracle.custom(t, Get(r, name)) == Made(v)
    ensures ReadCustomObject(reg, r, name, t, oracle) == Ok(v)
  {
  }

  /** A custom read of an unregistered class fails the same way whatever the
      record holds. */
  lemma UnregisteredIgnoresRecord(reg: Registry, r1: Record, r2: Record, name: string, t: TypeId, oracle: Oracle)
    requires !HasDeserializer(reg, t)
    ensures ReadCustomObject(reg, r1, name, t, oracle) == ReadCustomObject(reg, r2, name, t, oracle) == Err(Unregistered)
    ensures ReadCustomObjectArray(reg, r1, name, t, oracle) == ReadCustomObjectArray(reg, r2, name, t, oracle) == Err(Unregistered)
  {
  }

  /** A compound record nested in another survives the outer record's
      bytes under the identity codec: after `fromBytes(toBytes())`,
      `readCompoundObject` returns the nested value that was written. */
  lemma NestedCompoundSurvives(reg: Registry, r: Record, order: seq<string>, key: string, oracle: Oracle)
    requires Enumerates(order, r.Keys)
    requires Serializable(reg, r)
    requires key in r && r[key] != Null && ClassOf(r[key]) == CompoundType
    ensures FromBytes(ToBytes(reg, r, order).value).Ok?
    ensures ReadCompoundObject(FromBytes(ToBytes(reg, r, order).value).value, key, oracle) == Ok(r[key])
  {
    BytesRoundTrip(reg, r, order);
    CompoundIsWrittenTwice();
    assert Expected(CompoundType) != [];
    assert Encodes(reg, r[key]);
    assert Get(Normalise(reg, r), key) == r[key];
  }
}
