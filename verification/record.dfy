/** The compound record's in-memory side: a key -> value map filled by typed
    writes that store their argument unchanged, and read back by typed reads
    that cast the stored value to the requested shape. */
module Record {
  import opened Values
  import opened Outcome

  type Record = map<string, Value>

  /** `getObject(name)`: the stored value, null for a key never written. */
  function Get(r: Record, name: string): Value {
    if name in r then r[name] else Null
  }

  /** `getObjectCount()`. */
  function ObjectCount(r: Record): nat {
    |r|
  }

  /** `r'` is `r` with `v` stored under `name` and every other key left as it
      was. */
  ghost predicate Stores(r: Record, r': Record, name: string, v: Value) {
    && name in r' && r'[name] == v
    && (forall k :: k != name ==> (k in r' <==> k in r))
    && (forall k :: k != name && k in r ==> r'[k] == r[k])
  }

  /** The one effect shared by every typed write: `OBJECT_MAP.put(name, v)`. */
  function Put(r: Record, name: string, v: Value): (r': Record)
    ensures Stores(r, r', name, v)
    ensures ObjectCount(r') == ObjectCount(r) + (if name in r then 0 else 1)
  {
    r[name := v]
  }

  // ----- typed writes: each stores its argument, of the Java parameter's static type

  /** `writeByte`, `writeShort`, ..., `writeChar`. */
  function WriteScalar(r: Record, name: string, kind: ScalarKind, bits: int): (r': Record)
    requires Fits(kind, bits)
    ensures Stores(r, r', name, Scalar(kind, bits))
    ensures ObjectCount(r') == ObjectCount(r) + (if name in r then 0 else 1)
    ensures ReadScalar(r', name, kind) == Ok(bits)
  {
    Put(r, name, Scalar(kind, bits))
  }

  /** The scalar array classes a `write<Kind>Array` overload accepts: the
      native array or the boxed one. */
  predicate IsScalarArray(v: Value, kind: ScalarKind) {
    v == Null || ClassOf(v) == ArrayOf(Primitive(kind)) || ClassOf(v) == ArrayOf(Boxed(kind))
  }

  /** Both overloads of `writeByteArray`, ..., `writeCharArray`. */
  function WriteScalarArray(r: Record, name: string, kind: ScalarKind, arr: Value): (r': Record)
    requires IsScalarArray(arr, kind)
    ensures Stores(r, r', name, arr)
    ensures ObjectCount(r') == ObjectCount(r) + (if name in r then 0 else 1)
    ensures arr == Null || ClassOf(arr) == ArrayOf(Boxed(kind)) ==> ReadBoxedArray(r', name, kind) == Ok(arr)
    ensures arr != Null && ClassOf(arr) == ArrayOf(Primitive(kind)) ==> ReadBoxedArray(r', name, kind) == Err(ClassCast)
  {
    Put(r, name, arr)
  }

  /** `writeString` (the string may be null). */
  function WriteString(r: Record, name: string, v: Value): (r': Record)
    requires v == Null || v.Str?
    ensures Stores(r, r', name, v)
    ensures ObjectCount(r') == ObjectCount(r) + (if name in r then 0 else 1)
    ensures ReadString(r', name) == Ok(v)
  {
    Put(r, name, v)
  }

  /** `writeStringArray`. */
  function WriteStringArray(r: Record, name: string, arr: Value): (r': Record)
    requires arr == Null || ClassOf(arr) == ArrayOf(StringType)
    ensures Stores(r, r', name, arr)
    ensures ObjectCount(r') == ObjectCount(r) + (if name in r then 0 else 1)
    ensures ReadStringArray(r', name) == Ok(arr)
  {
    Put(r, name, arr)
  }

  /** The four families of object writes, by the bound on their type parameter. */
  datatype ObjectFamily = NamedFamily | KeylessFamily | RawFamily | CustomFamily

  /** Whether a class satisfies a family's bound: `T extends INamedSerializable`,
      `IKeylessSerializable`, `IDataStreamSerializable`, or any reference class. */
  predicate InFamily(t: TypeId, family: ObjectFamily) {
    match family
    case NamedFamily => HasCap(t, NamedSerializable)
    case KeylessFamily => HasCap(t, KeylessSerializable)
    case RawFamily => HasCap(t, RawSerializable)
    case CustomFamily => !t.Primitive?
  }

  /** `writeNamedObject`, `writeKeylessObject`, `writeRawObject`,
      `writeCustomObject`, and `writeCompoundObject`, which is
      `writeNamedObject`. Only `writeCustomObject`'s unbounded type
      parameter admits an array. */
  function WriteObject(r: Record, name: string, family: ObjectFamily, obj: Value): (r': Record)
    requires obj == Null || ((family == CustomFamily || !ClassOf(obj).ArrayOf?) && InFamily(ClassOf(obj), family))
    ensures Stores(r, r', name, obj)
    ensures ObjectCount(r') == ObjectCount(r) + (if name in r then 0 else 1)
  {
    Put(r, name, obj)
  }

  /** The `...ObjectArray` variants of the same writes, taking a `T[]`. */
  function WriteObjectArray(r: Record, name: string, family: ObjectFamily, arr: Value): (r': Record)
    requires arr == Null || (arr.Objects? && InFamily(arr.comp, family))
    ensures Stores(r, r', name, arr)
    ensures ObjectCount(r') == ObjectCount(r) + (if name in r then 0 else 1)
  {
    Put(r, name, arr)
  }

  // ----- typed reads

  /** `readByte`, ..., `readChar`: `(int) OBJECT_MAP.get(name)` unboxes, so a
      missing key fails with a null dereference and a value of any other class
      with a cast error. */
  function ReadScalar(r: Record, name: string, kind: ScalarKind): (res: Result<int>)
    ensures res.Ok? <==> Get(r, name).Scalar? && Get(r, name).kind == kind
    ensures res.Ok? ==> res.value == Get(r, name).bits
    ensures Get(r, name) == Null ==> res == Err(NullPointer)
    ensures Get(r, name) != Null && !res.Ok? ==> res == Err(ClassCast)
  {
    var o := Get(r, name);
    if o == Null then Err(NullPointer)
    else if ClassOf(o) == Boxed(kind) then Ok(o.bits)
    else Err(ClassCast)
  }

  /** An unchecked reference cast `(T) o`: null passes, any other class fails. */
  function CastTo(o: Value, t: TypeId): (res: Result<Value>)
    ensures res.Ok? <==> o == Null || ClassOf(o) == t
    ensures res.Ok? ==> res.value == o
    ensures !res.Ok? ==> res == Err(ClassCast)
  {
    if o == Null || ClassOf(o) == t then Ok(o) else Err(ClassCast)
  }

  /** `readByteArray`, ..., `readCharArray`: the stored boxed array itself. */
  function ReadBoxedArray(r: Record, name: string, kind: ScalarKind): (res: Result<Value>)
    ensures res.Ok? <==> Get(r, name) == Null || ClassOf(Get(r, name)) == ArrayOf(Boxed(kind))
    ensures res.Ok? ==> res.value == Get(r, name)
  {
    CastTo(Get(r, name), ArrayOf(Boxed(kind)))
  }

  /** `readString`. */
  function ReadString(r: Record, name: string): (res: Result<Value>)
    ensures res.Ok? <==> Get(r, name) == Null || Get(r, name).Str?
    ensures res.Ok? ==> res.value == Get(r, name)
  {
    CastTo(Get(r, name), StringType)
  }

  /** `readStringArray`. */
  function ReadStringArray(r: Record, name: string): (res: Result<Value>)
    ensures res.Ok? <==> Get(r, name) == Null || ClassOf(Get(r, name)) == ArrayOf(StringType)
    ensures res.Ok? ==> res.value == Get(r, name)
  {
    CastTo(Get(r, name), ArrayOf(StringType))
  }

  /** `readByteArrayAsNative`, ..., `readCharArrayAsNative`: cast the stored
      value to the boxed array and unbox it element by element into a fresh
      native array. A missing key or a null element is a null dereference;
      a native array stored by the other `write<Kind>Array` overload is a cast
      error. */
  method ReadArrayAsNative(r: Record, name: string, kind: ScalarKind) returns (res: Result<seq<int>>)
    ensures res.Ok? <==> Get(r, name) != Null && ClassOf(Get(r, name)) == ArrayOf(Boxed(kind))
                         && forall i :: 0 <= i < |Get(r, name).elems| ==> Get(r, name).elems[i].Scalar?
    ensures res.Ok? ==> |res.value| == |Get(r, name).elems|
    ensures res.Ok? ==> forall i :: 0 <= i < |res.value| ==> res.value[i] == Get(r, name).elems[i].bits
  {
    var o := Get(r, name);
    if o == Null {
      return Err(NullPointer);
    }
    if ClassOf(o) != ArrayOf(Boxed(kind)) {
      return Err(ClassCast);
    }
    var arr := o.elems;
    var native: seq<int> := [];
    var i := 0;
    while i < |arr|
      invariant 0 <= i <= |arr|
      invariant |native| == i
      invariant forall j :: 0 <= j < i ==> arr[j].Scalar? && native[j] == arr[j].bits
    {
      match arr[i] {
        case Scalar(_, bits) =>
          native := native + [bits];
        case Null =>
          return Err(NullPointer);
        case _ =>
          // Java's array store check keeps any other class out of a boxed array.
          return Err(ClassCast);
      }
      i := i + 1;
    }
    return Ok(native);
  }

  /** `getKeys()`: the key set as an array, in the map's iteration order,
      which the choice below leaves open. */
  method GetKeys(r: Record) returns (keys: seq<string>)
    ensures |keys| == ObjectCount(r)
    ensures forall k :: k in keys <==> k in r
    ensures forall i, j :: 0 <= i < j < |keys| ==> keys[i] != keys[j]
  {
    keys := [];
    var rest := r.Keys;
    while rest != {}
      invariant rest <= r.Keys
      invariant forall k :: k in keys <==> k in r.Keys - rest
      invariant forall i, j :: 0 <= i < j < |keys| ==> keys[i] != keys[j]
      invariant |keys| + |rest| == |r.Keys|
      decreases |rest|
    {
      var k :| k in rest;
      assert k !in keys;
      keys := keys + [k];
      rest := rest - {k};
    }
  }
}
