/** Serialize-time classification: which write primitive(s) of the nested
    Named encoder a stored value is forwarded to. A class with a registered
    custom serializer (for an array: its component class) goes to the custom
    primitive alone; every other value runs through a chain of independent
    `instanceof` tests, each of which that matches adds one write. */
module Dispatch {
  import opened Values
  import opened Outcome
  import opened Registry

  /** An `instanceof` test of the cascade. */
  datatype Test =
    | IsBoxed(kind: ScalarKind)        // o instanceof Integer
    | IsNativeArray(kind: ScalarKind)  // o instanceof int[]
    | IsBoxedArray(kind: ScalarKind)   // o instanceof Integer[]
    | IsString
    | IsStringArray
    | Implements(cap: Cap)             // o instanceof INamedSerializable
    | ImplementsArray(cap: Cap)        // o instanceof INamedSerializable[]

  /** One `if (test) miniSerializer.op(key, o);` line. */
  datatype Branch = Branch(test: Test, op: Op)

  /** `instanceof` depends on the runtime class alone. */
  predicate Matches(test: Test, cls: TypeId) {
    match test
    case IsBoxed(k) => cls == Boxed(k)
    case IsNativeArray(k) => cls == ArrayOf(Primitive(k))
    case IsBoxedArray(k) => cls == ArrayOf(Boxed(k))
    case IsString => cls == StringType
    case IsStringArray => cls == ArrayOf(StringType)
    case Implements(c) => HasCap(cls, c)
    case ImplementsArray(c) => cls.ArrayOf? && HasCap(cls.elem, c)
  }

  /** The three lines for one primitive kind: boxed, native array, boxed array. */
  function ScalarBlock(k: ScalarKind): seq<Branch> {
    [Branch(IsBoxed(k), WriteScalar(k)),
     Branch(IsNativeArray(k), WriteScalarArray(k)),
     Branch(IsBoxedArray(k), WriteScalarArray(k))]
  }

  /** The object lines: Named, Keyless and raw objects and their arrays. */
  const ObjectBlock: seq<Branch> :=
    [Branch(Implements(NamedSerializable), WriteNamedObject),
     Branch(ImplementsArray(NamedSerializable), WriteNamedObjectArray),
     Branch(Implements(KeylessSerializable), WriteKeylessObject),
     Branch(ImplementsArray(KeylessSerializable), WriteKeylessObjectArray),
     Branch(Implements(RawSerializable), WriteRawObject),
     Branch(ImplementsArray(RawSerializable), WriteRawObjectArray)]

  /** The cascade in source order. The Long block appears twice, and there is
      no block for Char. */
  const Cascade: seq<Branch> :=
    ScalarBlock(Byte) + ScalarBlock(Short) + ScalarBlock(Long) + ScalarBlock(Int)
    + ScalarBlock(Long) + ScalarBlock(Float) + ScalarBlock(Double) + ScalarBlock(Boolean)
    + [Branch(IsString, WriteString), Branch(IsStringArray, WriteStringArray)]
    + ObjectBlock

  /** The writes a run through `bs` performs for a value of class `cls`: every
      matching line fires, none stops the others. */
  function Fired(bs: seq<Branch>, cls: TypeId): seq<Op>
    decreases |bs|
  {
    if bs == [] then []
    else (if Matches(bs[0].test, cls) then [bs[0].op] else []) + Fired(bs[1..], cls)
  }

  /** An independent description of the cascade's outcome per class. */
  function Expected(cls: TypeId): seq<Op> {
    match cls
    case Boxed(k) => KindWrites(k, WriteScalar(k))
    case ArrayOf(Primitive(k)) => KindWrites(k, WriteScalarArray(k))
    case ArrayOf(Boxed(k)) => KindWrites(k, WriteScalarArray(k))
    case StringType => [WriteString]
    case ArrayOf(StringType) => [WriteStringArray]
    case Declared(_, caps) =>
      (if NamedSerializable in caps then [WriteNamedObject] else [])
      + (if KeylessSerializable in caps then [WriteKeylessObject] else [])
      + (if RawSerializable in caps then [WriteRawObject] else [])
    case ArrayOf(Declared(_, caps)) =>
      (if NamedSerializable in caps then [WriteNamedObjectArray] else [])
      + (if KeylessSerializable in caps then [WriteKeylessObjectArray] else [])
      + (if RawSerializable in caps then [WriteRawObjectArray] else [])
    case _ => []
  }

  /** Long's writes happen twice, Char's never, every other kind's once. */
  function KindWrites(k: ScalarKind, op: Op): seq<Op> {
    if k == Long then [op, op] else if k == Char then [] else [op]
  }

  lemma {:induction false} FiredAppend(a: seq<Branch>, b: seq<Branch>, cls: TypeId)
    ensures Fired(a + b, cls) == Fired(a, cls) + Fired(b, cls)
    decreases |a|
  {
    if a == [] {
      assert a + b == b;
    } else {
      var ab := a + b;
      assert ab[0] == a[0];
      assert ab[1..] == a[1..] + b;
      FiredAppend(a[1..], b, cls);
      assert Fired(ab, cls) == (if Matches(a[0].test, cls) then [a[0].op] else []) + Fired(ab[1..], cls);
    }
  }

  /** What one scalar block contributes for `cls`. */
  function ScalarLines(k: ScalarKind, cls: TypeId): seq<Op> {
    (if cls == Boxed(k) then [WriteScalar(k)] else [])
    + (if cls == ArrayOf(Primitive(k)) || cls == ArrayOf(Boxed(k)) then [WriteScalarArray(k)] else [])
  }

  /** What the two String lines contribute for `cls`. */
  function StringLines(cls: TypeId): seq<Op> {
    (if cls == StringType then [WriteString] else [])
    + (if cls == ArrayOf(StringType) then [WriteStringArray] else [])
  }

  /** What the object lines contribute for `cls`. */
  function ObjectLines(cls: TypeId): seq<Op> {
    (if HasCap(cls, NamedSerializable) then [WriteNamedObject] else [])
    + (if cls.ArrayOf? && HasCap(cls.elem, NamedSerializable) then [WriteNamedObjectArray] else [])
    + (if HasCap(cls, KeylessSerializable) then [WriteKeylessObject] else [])
    + (if cls.ArrayOf? && HasCap(cls.elem, KeylessSerializable) then [WriteKeylessObjectArray] else [])
    + (if HasCap(cls, RawSerializable) then [WriteRawObject] else [])
    + (if cls.ArrayOf? && HasCap(cls.elem, RawSerializable) then [WriteRawObjectArray] else [])
  }

  lemma ScalarBlockFires(k: ScalarKind, cls: TypeId)
    ensures Fired(ScalarBlock(k), cls) == ScalarLines(k, cls)
  {
    var b := ScalarBlock(k);
    assert b[1..][1..][1..] == [];
  }

  lemma StringLinesFire(cls: TypeId)
    ensures Fired([Branch(IsString, WriteString), Branch(IsStringArray, WriteStringArray)], cls)
         == StringLines(cls)
  {
    var b := [Branch(IsString, WriteString), Branch(IsStringArray, WriteStringArray)];
    assert b[1..][1..] == [];
  }

  lemma ObjectBlockFires(cls: TypeId)
    ensures Fired(ObjectBlock, cls) == ObjectLines(cls)
  {
    var b := ObjectBlock;
    assert b[1..][1..][1..][1..][1..][1..] == [];
  }

  /** The cascade is its blocks run one after the other. */
  lemma {:induction false} CascadeUnfolds(cls: TypeId)
    ensures Fired(Cascade, cls)
         == ScalarLines(Byte, cls) + ScalarLines(Short, cls) + ScalarLines(Long, cls)
          + ScalarLines(Int, cls) + ScalarLines(Long, cls) + ScalarLines(Float, cls)
          + ScalarLines(Double, cls) + ScalarLines(Boolean, cls) + StringLines(cls) + ObjectLines(cls)
  {
    var strings := [Branch(IsString, WriteString), Branch(IsStringArray, WriteStringArray)];
    var p1 := ScalarBlock(Byte);
    var p2 := p1 + ScalarBlock(Short);
    var p3 := p2 + ScalarBlock(Long);
    var p4 := p3 + ScalarBlock(Int);
    var p5 := p4 + ScalarBlock(Long);
    var p6 := p5 + ScalarBlock(Float);
    var p7 := p6 + ScalarBlock(Double);
    var p8 := p7 + ScalarBlock(Boolean);
    var p9 := p8 + strings;
    assert Cascade == p9 + ObjectBlock;
    ScalarBlockFires(Byte, cls);
    FiredAppend(p1, ScalarBlock(Short), cls);
    ScalarBlockFires(Short, cls);
    FiredAppend(p2, ScalarBlock(Long), cls);
    ScalarBlockFires(Long, cls);
    FiredAppend(p3, ScalarBlock(Int), cls);
    ScalarBlockFires(Int, cls);
    FiredAppend(p4, ScalarBlock(Long), cls);
    FiredAppend(p5, ScalarBlock(Float), cls);
    ScalarBlockFires(Float, cls);
    FiredAppend(p6, ScalarBlock(Double), cls);
    ScalarBlockFires(Double, cls);
    FiredAppend(p7, ScalarBlock(Boolean), cls);
    ScalarBlockFires(Boolean, cls);
    FiredAppend(p8, strings, cls);
    StringLinesFire(cls);
    FiredAppend(p9, ObjectBlock, cls);
    ObjectBlockFires(cls);
  }

  /** The cascade for the class of a boxed scalar of kind `k`. */
  lemma {:induction false} CascadeOnBoxed(k: ScalarKind)
    ensures Fired(Cascade, Boxed(k)) == KindWrites(k, WriteScalar(k))
  {
    CascadeUnfolds(Boxed(k));
    match k {
      case Byte =>
      case Short =>
      case Long =>
      case Int =>
      case Float =>
      case Double =>
      case Boolean =>
      case Char =>
    }
  }

  /** The cascade for the class of a native array of kind `k`. */
  lemma {:induction false} CascadeOnNativeArray(k: ScalarKind)
    ensures Fired(Cascade, ArrayOf(Primitive(k))) == KindWrites(k, WriteScalarArray(k))
  {
    CascadeUnfolds(ArrayOf(Primitive(k)));
    match k {
      case Byte =>
      case Short =>
      case Long =>
      case Int =>
      case Float =>
      case Double =>
      case Boolean =>
      case Char =>
    }
  }

  /** The cascade for the class of a boxed array of kind `k`. */
  lemma {:induction false} CascadeOnBoxedArray(k: ScalarKind)
    ensures Fired(Cascade, ArrayOf(Boxed(k))) == KindWrites(k, WriteScalarArray(k))
  {
    CascadeUnfolds(ArrayOf(Boxed(k)));
    match k {
      case Byte =>
      case Short =>
      case Long =>
      case Int =>
      case Float =>
      case Double =>
      case Boolean =>
      case Char =>
    }
  }

  /** The cascade for String and String[]. */
  lemma {:induction false} CascadeOnStrings()
    ensures Fired(Cascade, StringType) == [WriteString]
    ensures Fired(Cascade, ArrayOf(StringType)) == [WriteStringArray]
  {
    CascadeUnfolds(StringType);
    CascadeUnfolds(ArrayOf(StringType));
  }

  /** The cascade for a class no scalar or String line names. */
  lemma {:induction false} CascadeOnOthers(cls: TypeId)
    requires forall k :: cls != Boxed(k) && cls != ArrayOf(Primitive(k)) && cls != ArrayOf(Boxed(k))
    requires cls != StringType && cls != ArrayOf(StringType)
    ensures Fired(Cascade, cls) == ObjectLines(cls)
  {
    CascadeUnfolds(cls);
    var e: seq<Op> := [];
    assert ScalarLines(Byte, cls) == e && ScalarLines(Short, cls) == e && ScalarLines(Long, cls) == e;
    assert ScalarLines(Int, cls) == e && ScalarLines(Float, cls) == e && ScalarLines(Double, cls) == e;
    assert ScalarLines(Boolean, cls) == e && StringLines(cls) == e;
    assert Fired(Cascade, cls) == e + e + e + e + e + e + e + e + e + ObjectLines(cls);
  }

  /** The cascade does what `Expected` says, for every class. */
  lemma {:induction false} CascadeIsExpected(cls: TypeId)
    ensures Fired(Cascade, cls) == Expected(cls)
  {
    match cls {
      case Boxed(k) => CascadeOnBoxed(k);
      case ArrayOf(Primitive(k)) => CascadeOnNativeArray(k);
      case ArrayOf(Boxed(k)) => CascadeOnBoxedArray(k);
      case StringType => CascadeOnStrings();
      case ArrayOf(StringType) => CascadeOnStrings();
      case _ =>
        CascadeOnOthers(cls);
    }
  }

  /** `Character` and `char[]`/`Character[]` match no line of the cascade. */
  lemma CharHasNoBranch()
    ensures Fired(Cascade, Boxed(Char)) == []
    ensures Fired(Cascade, ArrayOf(Primitive(Char))) == []
    ensures Fired(Cascade, ArrayOf(Boxed(Char))) == []
  {
    CascadeIsExpected(Boxed(Char));
    CascadeIsExpected(ArrayOf(Primitive(Char)));
    CascadeIsExpected(ArrayOf(Boxed(Char)));
  }

  /** A `Long`, `long[]` or `Long[]` is written twice, by the two Long blocks. */
  lemma LongIsWrittenTwice()
    ensures Fired(Cascade, Boxed(Long)) == [WriteScalar(Long), WriteScalar(Long)]
    ensures Fired(Cascade, ArrayOf(Primitive(Long))) == [WriteScalarArray(Long), WriteScalarArray(Long)]
    ensures Fired(Cascade, ArrayOf(Boxed(Long))) == [WriteScalarArray(Long), WriteScalarArray(Long)]
  {
    CascadeIsExpected(Boxed(Long));
    CascadeIsExpected(ArrayOf(Primitive(Long)));
    CascadeIsExpected(ArrayOf(Boxed(Long)));
  }

  /** A nested compound record is both Named- and Keyless-serializable, so
      both object lines write it. */
  lemma CompoundIsWrittenTwice()
    ensures Fired(Cascade, CompoundType) == [WriteNamedObject, WriteKeylessObject]
    ensures Fired(Cascade, ArrayOf(CompoundType)) == [WriteNamedObjectArray, WriteKeylessObjectArray]
  {
    CascadeIsExpected(CompoundType);
    CascadeIsExpected(ArrayOf(CompoundType));
  }

  /** The class the registry is consulted for: an array's component class. */
  function Component(cls: TypeId): TypeId {
    if cls.ArrayOf? then cls.elem else cls
  }

  /** The same write of `o` under `key` through each primitive of `ops`. */
  function Tag(ops: seq<Op>, key: string, o: Value): (es: seq<Entry>)
    ensures |es| == |ops|
    ensures forall i :: 0 <= i < |es| ==> es[i] == Entry(ops[i], key, o)
  {
    seq(|ops|, i requires 0 <= i < |ops| => Entry(ops[i], key, o))
  }

  /** Whether serialization forwards `o` to at least one primitive. */
  predicate Encodes(reg: Registry, o: Value) {
    o != Null && (HasSerializer(reg, Component(ClassOf(o))) || Expected(ClassOf(o)) != [])
  }

  /** One turn of the serialize loop: the writes made on the nested encoder
      for `key`. `o.getClass()` fails on null; a registered class goes only
      to the custom primitive chosen by array-ness (the `(Object[])` cast
      fails on a native array); anything else runs the cascade. */
  function Forward(reg: Registry, key: string, o: Value): (r: Result<seq<Entry>>)
    ensures o == Null ==> r == Err(NullPointer)
    ensures r.Ok? ==> forall i :: 0 <= i < |r.value| ==> r.value[i].key == key && r.value[i].payload == o
    ensures r.Ok? ==> (|r.value| > 0 <==> Encodes(reg, o))
    ensures o != Null && HasSerializer(reg, Component(ClassOf(o))) ==>
      (r.Ok? <==> !(ClassOf(o).ArrayOf? && ClassOf(o).elem.Primitive?))
      && (r.Ok? ==> r.value == [Entry(if ClassOf(o).ArrayOf? then WriteCustomObjectArray else WriteCustomObject, key, o)])
    ensures o != Null && !HasSerializer(reg, Component(ClassOf(o))) ==> r == Ok(Tag(Expected(ClassOf(o)), key, o))
  {
    if o == Null then Err(NullPointer)
    else
      var cls := ClassOf(o);
      if HasSerializer(reg, Component(cls)) then
        if !cls.ArrayOf? then Ok([Entry(WriteCustomObject, key, o)])
        else if cls.elem.Primitive? then Err(ClassCast)
        else Ok([Entry(WriteCustomObjectArray, key, o)])
      else
        CascadeIsExpected(cls);
        Ok(Tag(Fired(Cascade, cls), key, o))
  }
}
