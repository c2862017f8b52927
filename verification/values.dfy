/** The closed set of values a compound record can hold, their runtime
    classes, and the write primitives of the Named encoder that a value can be
    forwarded to. */
module Values {

  /** Java's eight primitive kinds, each with a boxed class and a native array. */
  datatype ScalarKind = Byte | Short | Int | Long | Float | Double | Boolean | Char

  /** Whether `bits` is a value of the primitive type for `kind`. Floats and
      doubles are opaque tokens (their raw IEEE bit patterns): nothing here
      computes with them. */
  predicate Fits(kind: ScalarKind, bits: int) {
    match kind
    case Byte => -0x80 <= bits < 0x80
    case Short => -0x8000 <= bits < 0x8000
    case Int => -0x8000_0000 <= bits < 0x8000_0000
    case Long => -0x8000_0000_0000_0000 <= bits < 0x8000_0000_0000_0000
    case Float => 0 <= bits < 0x1_0000_0000
    case Double => 0 <= bits < 0x1_0000_0000_0000_0000
    case Boolean => bits == 0 || bits == 1
    case Char => 0 <= bits < 0x1_0000
  }

  /** The library interfaces a declared class may implement. */
  datatype Cap =
    | NamedSerializable     // INamedSerializable: writes itself to a Named encoder
    | KeylessSerializable   // IKeylessSerializable
    | RawSerializable       // IDataStreamSerializable: reads itself from a byte stream
    | NamedDeserializer     // INamedDeserializer: a Named decoder
    | KeylessDeserializer   // IKeylessDeserializer

  /** A runtime class: the identity the registry is keyed by. */
  datatype TypeId =
    | Boxed(kind: ScalarKind)                // Integer, Character, ...
    | Primitive(kind: ScalarKind)            // int, char, ... (only as an array component)
    | StringType
    | Declared(name: string, caps: set<Cap>) // a class of the program, with the interfaces it implements
    | ArrayOf(elem: TypeId)

  /** CompoundObject's own class: serializable both ways and itself a Named decoder. */
  const CompoundType: TypeId :=
    Declared("CompoundObject", {NamedSerializable, KeylessSerializable, NamedDeserializer})

  predicate HasCap(t: TypeId, c: Cap) {
    t.Declared? && c in t.caps
  }

  /** The write primitives of a Named encoder; the Java overloads taking a
      native or a boxed array are one primitive here. */
  datatype Op =
    | WriteScalar(kind: ScalarKind)
    | WriteScalarArray(kind: ScalarKind)
    | WriteString
    | WriteStringArray
    | WriteNamedObject
    | WriteNamedObjectArray
    | WriteKeylessObject
    | WriteKeylessObjectArray
    | WriteRawObject
    | WriteRawObjectArray
    | WriteCustomObject
    | WriteCustomObjectArray

  /** A stored value. Reference arrays of every element class (Byte[],
      String[], T[], Byte[][]) are `Objects`, whose elements may be null. */
  datatype Value =
    | Null
    | Scalar(kind: ScalarKind, bits: int)
    | Primitives(kind: ScalarKind, natives: seq<int>)
    | Str(s: string)
    | Object(cls: string, caps: set<Cap>, body: Body)
    | Objects(comp: TypeId, elems: seq<Value>)
    | Blob(log: seq<Entry>)  // the byte[] a Named encoder produced from these writes

  /** What an object holds: a key map (a compound record, or a Named
      decoder's view), a queue of items (a Keyless decoder), or opaque state. */
  datatype Body =
    | Fields(fields: map<string, Value>)
    | Items(items: seq<Value>)
    | State(token: int)

  /** One call on a Named encoder. */
  datatype Entry = Entry(op: Op, key: string, payload: Value)

  /** `o.getClass()`; undefined for null. */
  function ClassOf(v: Value): TypeId
    requires v != Null
  {
    match v
    case Scalar(k, _) => Boxed(k)
    case Primitives(k, _) => ArrayOf(Primitive(k))
    case Str(_) => StringType
    case Object(n, caps, _) => Declared(n, caps)
    case Objects(comp, _) => ArrayOf(comp)
    case Blob(_) => ArrayOf(Primitive(Byte))
  }

  /** The `String[]` holding `ss`. */
  function StringArray(ss: seq<string>): (v: Value)
    ensures v != Null && ClassOf(v) == ArrayOf(StringType) && |v.elems| == |ss|
    ensures forall i :: 0 <= i < |ss| ==> v.elems[i] == Str(ss[i])
  {
    Objects(StringType, seq(|ss|, i requires 0 <= i < |ss| => Str(ss[i])))
  }
}
