/** The record's two wire forms. Named: a `keys` string array, then a `data`
    byte array holding the bytes of a fresh nested encoder to which every
    value was forwarded. Keyless: one byte-array item holding the record's
    default Named encoding. Reading takes the key list and stores, for each
    key, whatever the nested decoder holds for it. */
module Serial {
  import opened Values
  import opened Outcome
  import opened Registry
  import opened NamedCodec
  import opened KeylessCodec
  import opened Record
  import opened Dispatch

  /** `order` lists the keys of `keys`, each once: an iteration order of the
      record's key set. */
  predicate Enumerates(order: seq<string>, keys: set<string>) {
    && (forall k :: k in order ==> k in keys)
    && (forall k :: k in keys ==> k in order)
    && (forall i, j :: 0 <= i < j < |order| ==> order[i] != order[j])
  }

  /** Whether every stored value can be forwarded without an exception. */
  predicate Serializable(reg: Registry, r: Record) {
    forall k :: k in r ==> Forward(reg, k, r[k]).Ok?
  }

  /** The entries a nested decoder of the `data` blob holds: exactly the keys
      whose value was forwarded somewhere. */
  function Inner(reg: Registry, r: Record): map<string, Value> {
    map k | k in r && Encodes(reg, r[k]) :: r[k]
  }

  /** What reading back a serialized record yields: every key, with its value
      where one was written to the blob and null where none was. */
  function Normalise(reg: Registry, r: Record): map<string, Value> {
    map k | k in r :: if Encodes(reg, r[k]) then r[k] else Null
  }

  /** The loop over the key set, writing into the fresh nested encoder; the
      first key whose value cannot be forwarded aborts it. */
  function ForwardAll(reg: Registry, r: Record, order: seq<string>): (res: Result<Log>)
    ensures res.Ok? <==> forall i :: 0 <= i < |order| ==> Forward(reg, order[i], Get(r, order[i])).Ok?
    ensures res.Ok? ==> forall e :: e in res.value ==> e.key in order && e.payload == Get(r, e.key)
    decreases |order|
  {
    if order == [] then Ok([])
    else
      var here :- Forward(reg, order[0], Get(r, order[0]));
      var rest :- ForwardAll(reg, r, order[1..]);
      Ok(here + rest)
  }

  /** The values of the keys in `order` that are forwarded somewhere. */
  function Forwarded(reg: Registry, r: Record, order: seq<string>): map<string, Value> {
    map k | k in order && Encodes(reg, Get(r, k)) :: Get(r, k)
  }

  /** Peeling the first key off a key list without repeats. */
  lemma ForwardedSplit(reg: Registry, r: Record, order: seq<string>)
    requires order != [] && order[0] !in order[1..]
    ensures Forwarded(reg, r, order)
         == (if Encodes(reg, Get(r, order[0])) then map[order[0] := Get(r, order[0])] else map[])
            + Forwarded(reg, r, order[1..])
  {
    var k0, tail := order[0], order[1..];
    var expected := Forwarded(reg, r, order);
    var joined := (if Encodes(reg, Get(r, k0)) then map[k0 := Get(r, k0)] else map[]) + Forwarded(reg, r, tail);
    assert order == [k0] + tail;
    forall k ensures k in expected <==> k in joined {
      assert k in order <==> k == k0 || k in tail;
    }
    forall k | k in expected ensures expected[k] == joined[k] {
      if k != k0 {
        assert k in Forwarded(reg, r, tail);
      }
    }
    assert expected == joined;
  }

  /** The nested decoder over the loop's writes holds exactly the forwarded
      values, whatever the number of writes per key. */
  lemma {:induction false} ForwardAllView(reg: Registry, r: Record, order: seq<string>)
    requires forall i, j :: 0 <= i < j < |order| ==> order[i] != order[j]
    requires ForwardAll(reg, r, order).Ok?
    ensures View(ForwardAll(reg, r, order).value) == Forwarded(reg, r, order)
    decreases |order|
  {
    if order == [] {
      assert Forwarded(reg, r, order) == map[];
    } else {
      var k0 := order[0];
      var v0 := Get(r, k0);
      var tail := order[1..];
      var here := Forward(reg, k0, v0).value;
      var rest := ForwardAll(reg, r, tail).value;
      assert ForwardAll(reg, r, order).value == here + rest;
      ForwardAllView(reg, r, tail);
      ViewAppend(here, rest);
      ViewOfRepeats(here, k0, v0);
      assert k0 !in tail by {
        forall i | 0 <= i < |tail| ensures tail[i] != k0 {
          assert tail[i] == order[i + 1];
        }
      }
      ForwardedSplit(reg, r, order);
    }
  }

  /** A key list that enumerates no keys is empty. */
  lemma NoKeysNoOrder(order: seq<string>, keys: set<string>)
    requires Enumerates(order, keys)
    ensures keys == {} ==> order == []
  {
    if order != [] {
      assert order[0] in keys;
    }
  }

  function KeysEntry(order: seq<string>): Entry {
    Entry(WriteStringArray, "keys", StringArray(order))
  }

  function DataEntry(bytes: Value): Entry {
    Entry(WriteScalarArray(Byte), "data", bytes)
  }

  /** `write(INamedSerializer)`: serialize `r` onto the encoder `target`,
      iterating the key set in `order`. */
  function WriteNamed(reg: Registry, r: Record, order: seq<string>, target: Log): (res: Result<Log>)
    requires Enumerates(order, r.Keys)
    ensures |r| == 0 ==> res == Ok(target + [KeysEntry([]), DataEntry(Primitives(Byte, []))])
    ensures res.Ok? <==> Serializable(reg, r)
    ensures res.Ok? ==> |res.value| == |target| + 2 && res.value[..|target|] == target
    ensures res.Ok? ==> res.value[|target|] == KeysEntry(order)
    ensures res.Ok? && |r| > 0 ==> exists log :: res.value[|target| + 1] == DataEntry(Blob(log)) && View(log) == Inner(reg, r)
  {
    if |r| == 0 then
      NoKeysNoOrder(order, r.Keys);
      Ok(target + [KeysEntry([]), DataEntry(Primitives(Byte, []))])
    else
      match ForwardAll(reg, r, order)
      case Err(f) =>
        assert !Serializable(reg, r) by {
          var i :| 0 <= i < |order| && !Forward(reg, order[i], Get(r, order[i])).Ok?;
          assert order[i] in r;
        }
        Err(f)
      case Ok(log) =>
        assert Serializable(reg, r) by {
          forall k | k in r ensures Forward(reg, k, r[k]).Ok? {
            var i :| 0 <= i < |order| && order[i] == k;
          }
        }
        ForwardAllView(reg, r, order);
        assert Forwarded(reg, r, order) == Inner(reg, r);
        Ok(target + [KeysEntry(order), DataEntry(Blob(log))])
  }

  /** Every key listed in `keys` takes the decoder's value for it; every
      other key of `base` keeps its own. */
  function Overlay(base: Record, keys: seq<string>, mini: map<string, Value>): (r: Record)
    ensures forall k :: k in r <==> k in base || k in keys
    ensures forall k :: k in keys ==> r[k] == Lookup(mini, k)
    ensures forall k :: k in base && k !in keys ==> r[k] == base[k]
  {
    base + map k | k in keys :: Lookup(mini, k)
  }

  /** The loop of `read(INamedDeserializer)`: one `put` per listed key. */
  method PutEach(base: Record, keys: seq<string>, mini: map<string, Value>) returns (r: Record)
    ensures r == Overlay(base, keys, mini)
  {
    r := base;
    var i := 0;
    while i < |keys|
      invariant 0 <= i <= |keys|
      invariant forall k :: k in r <==> k in base || k in keys[..i]
      invariant forall k :: k in keys[..i] ==> r[k] == Lookup(mini, k)
      invariant forall k :: k in base && k !in keys[..i] ==> r[k] == base[k]
    {
      assert keys[..i + 1] == keys[..i] + [keys[i]];
      r := r[keys[i] := Lookup(mini, keys[i])];
      i := i + 1;
    }
    assert keys[..i] == keys;
  }

  /** `read(INamedDeserializer)` on a record holding `base`, from a decoder
      whose view is `d`: read the `keys` array, build a decoder over the
      `data` bytes, then store the nested decoder's value for each key. */
  function ReadNamed(base: Record, d: map<string, Value>): (res: Result<Record>)
    ensures res.Ok? ==> Lookup(d, "keys") != Null && ClassOf(Lookup(d, "keys")) == ArrayOf(StringType)
    ensures res.Ok? ==> Decode(Lookup(d, "data")).Ok?
    ensures res.Ok? ==> KeyList(Lookup(d, "keys")).Some?
    ensures res.Ok? ==> res.value == Overlay(base, KeyList(Lookup(d, "keys")).value, Decode(Lookup(d, "data")).value)
    ensures res.Ok? <==>
              && Lookup(d, "keys") != Null && ClassOf(Lookup(d, "keys")) == ArrayOf(StringType)
              && KeyList(Lookup(d, "keys")).Some? && Decode(Lookup(d, "data")).Ok?
    ensures Lookup(d, "keys") != Null && ClassOf(Lookup(d, "keys")) != ArrayOf(StringType) ==> res == Err(ClassCast)
    ensures ((Lookup(d, "keys") == Null || ClassOf(Lookup(d, "keys")) == ArrayOf(StringType))
             && Decode(Lookup(d, "data")).Err?) ==> res == Err(Malformed)
    ensures Lookup(d, "keys") == Null && Decode(Lookup(d, "data")).Ok? ==> res == Err(NullPointer)
    ensures (Lookup(d, "keys") != Null && ClassOf(Lookup(d, "keys")) == ArrayOf(StringType)
             && KeyList(Lookup(d, "keys")).None? && Decode(Lookup(d, "data")).Ok?) ==> res == Err(Malformed)
  {
    var keys := Lookup(d, "keys");
    if keys != Null && ClassOf(keys) != ArrayOf(StringType) then Err(ClassCast)
    else
      var mini :- Decode(Lookup(d, "data"));
      if keys == Null then Err(NullPointer)
      else
        match KeyList(keys)
        case None => Err(Malformed)
        case Some(ks) => Ok(Overlay(base, ks, mini))
  }

  /** The key list of a string array built from `ks` is `ks`. */
  lemma KeysOfStringArray(ks: seq<string>)
    ensures KeyList(StringArray(ks)) == Some(ks)
  {
    var ls := KeyList(StringArray(ks));
    forall i | 0 <= i < |ks| ensures StringArray(ks).elems[i].Str? {
    }
    assert ls.Some?;
    assert |ls.value| == |ks|;
    forall i | 0 <= i < |ks| ensures ls.value[i] == ks[i] {
      assert StringArray(ks).elems[i] == Str(ks[i]);
    }
    assert ls.value == ks;
  }

  /** A decoder over the two entries of a serialized record holds the key
      list under `keys` and the nested bytes under `data`. */
  lemma TwoEntryView(order: seq<string>, data: Value)
    ensures Lookup(View([KeysEntry(order), DataEntry(data)]), "keys") == StringArray(order)
    ensures Lookup(View([KeysEntry(order), DataEntry(data)]), "data") == data
  {
    var w := [KeysEntry(order), DataEntry(data)];
    assert w[..1] == [KeysEntry(order)];
    assert [KeysEntry(order)][..0] == [];
  }

  /** Storing the nested decoder's value for every key of the record gives
      the normalised record. */
  lemma OverlayNormalises(reg: Registry, r: Record, order: seq<string>, mini: map<string, Value>)
    requires Enumerates(order, r.Keys)
    requires mini == Inner(reg, r)
    ensures Overlay(map[], order, mini) == Normalise(reg, r)
  {
    var result := Overlay(map[], order, mini);
    var norm := Normalise(reg, r);
    forall k ensures k in result <==> k in norm {
    }
    forall k | k in norm ensures result[k] == norm[k] {
      assert k in order;
    }
  }

  /** What `WriteNamed` leaves in an empty encoder: the key list, then a
      `data` field that decodes to the classified values. */
  lemma WrittenFields(reg: Registry, r: Record, order: seq<string>)
    requires Enumerates(order, r.Keys)
    requires Serializable(reg, r)
    ensures WriteNamed(reg, r, order, []).Ok?
    ensures WriteNamed(reg, r, order, []).value
         == [KeysEntry(order), DataEntry(WriteNamed(reg, r, order, []).value[1].payload)]
    ensures Decode(WriteNamed(reg, r, order, []).value[1].payload) == Ok(Inner(reg, r))
  {
    var w := WriteNamed(reg, r, order, []).value;
    if |r| == 0 {
      assert Inner(reg, r) == map[];
    } else {
      var log :| w[1] == DataEntry(Blob(log)) && View(log) == Inner(reg, r);
    }
  }

  /** Reading back what `WriteNamed` wrote into an empty encoder, into a
      fresh record, gives every key back: with its value where the value was
      forwarded, null where no branch took it. */
  lemma {:induction false} NamedRoundTrip(reg: Registry, r: Record, order: seq<string>)
    requires Enumerates(order, r.Keys)
    requires Serializable(reg, r)
    ensures WriteNamed(reg, r, order, []).Ok?
    ensures ReadNamed(map[], View(WriteNamed(reg, r, order, []).value)) == Ok(Normalise(reg, r))
  {
    WrittenFields(reg, r, order);
    var w := WriteNamed(reg, r, order, []).value;
    var data := w[1].payload;
    TwoEntryView(order, data);
    KeysOfStringArray(order);
    OverlayNormalises(reg, r, order, Inner(reg, r));
  }

  /** The outer key list and the nested blob hold the same key set exactly
      when every stored value is forwarded somewhere. */
  lemma InnerKeysMatchOuter(reg: Registry, r: Record)
    ensures Inner(reg, r).Keys == r.Keys <==> forall k :: k in r ==> Encodes(reg, r[k])
  {
  }

  /** `toBytes()`: the default encoder's bytes after `write`. */
  function ToBytes(reg: Registry, r: Record, order: seq<string>): (res: Result<Value>)
    requires Enumerates(order, r.Keys)
    ensures res.Ok? <==> Serializable(reg, r)
    ensures res.Ok? ==> res.value.Blob? && |res.value.log| == 2 && res.value.log[0] == KeysEntry(order)
  {
    var log :- WriteNamed(reg, r, order, []);
    Ok(Blob(log))
  }

  /** `fromBytes(bytes)` (uncompressed): a new, empty record reads itself
      from a decoder over `bytes`. */
  function FromBytes(bytes: Value): (res: Result<Record>)
    ensures res.Ok? <==> Decode(bytes).Ok? && ReadNamed(map[], Decode(bytes).value).Ok?
    ensures Decode(bytes).Err? ==> res == Err(Malformed)
    ensures res.Ok? ==>
              var d := Decode(bytes).value;
              res.value == Overlay(map[], KeyList(Lookup(d, "keys")).value, Decode(Lookup(d, "data")).value)
  {
    var view :- Decode(bytes);
    ReadNamed(map[], view)
  }

  /** `write(IKeylessSerializer)`: one byte-array item holding the record's
      default Named encoding. */
  function WriteKeyless(reg: Registry, r: Record, order: seq<string>, s: Stream): (res: Result<Stream>)
    requires Enumerates(order, r.Keys)
    ensures res.Ok? <==> Serializable(reg, r)
    ensures res.Ok? ==> |res.value| == |s| + 1 && res.value[..|s|] == s
    ensures res.Ok? ==> res.value[|s|] == Item(WriteScalarArray(Byte), ToBytes(reg, r, order).value)
  {
    var bytes :- ToBytes(reg, r, order);
    Ok(WriteByteArray(s, bytes))
  }

  /** `read(IKeylessDeserializer)`: consume one byte-array item and read the
      record from a default decoder over it. */
  function ReadKeyless(base: Record, rd: Reader): (res: Result<(Record, Reader)>)
    ensures res.Ok? ==> rd.pos < |rd.items| && res.value.1 == Reader(rd.items, rd.pos + 1)
    ensures res.Ok? ==> Decode(rd.items[rd.pos].payload).Ok?
    ensures res.Ok? ==> Ok(res.value.0) == ReadNamed(base, Decode(rd.items[rd.pos].payload).value)
    ensures !(rd.pos < |rd.items| && rd.items[rd.pos].op == WriteScalarArray(Byte)) ==> res == Err(Malformed)
    ensures rd.pos < |rd.items| && rd.items[rd.pos].op == WriteScalarArray(Byte) ==>
              (res.Ok? <==> Decode(rd.items[rd.pos].payload).Ok?
                            && ReadNamed(base, Decode(rd.items[rd.pos].payload).value).Ok?)
  {
    var (bytes, rest) :- ReadByteArrayAsNative(rd);
    var view :- Decode(bytes);
    var rec :- ReadNamed(base, view);
    Ok((rec, rest))
  }

  /** Bytes to record and back: decoding `toBytes()` gives the normalised record. */
  lemma BytesRoundTrip(reg: Registry, r: Record, order: seq<string>)
    requires Enumerates(order, r.Keys)
    requires Serializable(reg, r)
    ensures FromBytes(ToBytes(reg, r, order).value) == Ok(Normalise(reg, r))
  {
    NamedRoundTrip(reg, r, order);
  }

  /** A record embedded in a Keyless stream reads back, normalised, from
      exactly the one item it wrote. */
  lemma KeylessRoundTrip(reg: Registry, r: Record, order: seq<string>, s: Stream)
    requires Enumerates(order, r.Keys)
    requires Serializable(reg, r)
    ensures WriteKeyless(reg, r, order, s).Ok?
    ensures ReadKeyless(map[], Reader(WriteKeyless(reg, r, order, s).value, |s|))
         == Ok((Normalise(reg, r), Reader(WriteKeyless(reg, r, order, s).value, |s| + 1)))
  {
    NamedRoundTrip(reg, r, order);
    ByteArrayRoundTrip(s, ToBytes(reg, r, order).value);
  }

  /** No branch takes a `Character`: forwarding one writes nothing. */
  lemma CharForwardsNothing(reg: Registry, key: string, bits: int)
    requires !HasSerializer(reg, Boxed(Char))
    ensures Forward(reg, key, Scalar(Char, bits)) == Ok([])
    ensures !Encodes(reg, Scalar(Char, bits))
  {
    assert Expected(Boxed(Char)) == [];
  }

  /** A record holding a single null cannot be serialized. */
  lemma NullStopsWrite(reg: Registry, key: string)
    ensures Enumerates([key], map[key := Null].Keys)
    ensures WriteNamed(reg, map[key := Null], [key], []) == Err(NullPointer)
  {
    assert map[key := Null].Keys == {key};
    assert ForwardAll(reg, map[key := Null], [key]) == Err(NullPointer);
  }

  /** A record holding a single `Character` can be serialized, and reads
      back with null in its place. */
  lemma CharRecordNormalises(reg: Registry, key: string, bits: int)
    requires !HasSerializer(reg, Boxed(Char))
    ensures Enumerates([key], map[key := Scalar(Char, bits)].Keys)
    ensures Serializable(reg, map[key := Scalar(Char, bits)])
    ensures Normalise(reg, map[key := Scalar(Char, bits)]) == map[key := Null]
  {
    var r := map[key := Scalar(Char, bits)];
    assert r.Keys == {key};
    CharForwardsNothing(reg, key, bits);
    assert Serializable(reg, r) by {
      forall k | k in r ensures Forward(reg, k, r[k]).Ok? {
        assert k == key;
      }
    }
  }

  /** A `Character` is listed under `keys` but never reaches the blob: it
      reads back as null, and serializing the result then fails on
      `o.getClass()`. */
  lemma CharBreaksReserialisation(reg: Registry)
    requires !HasSerializer(reg, Boxed(Char))
    ensures Serializable(reg, map["c" := Scalar(Char, 0x78)])
    ensures FromBytes(ToBytes(reg, map["c" := Scalar(Char, 0x78)], ["c"]).value) == Ok(map["c" := Null])
    ensures WriteNamed(reg, map["c" := Null], ["c"], []) == Err(NullPointer)
  {
    CharRecordNormalises(reg, "c", 0x78);
    BytesRoundTrip(reg, map["c" := Scalar(Char, 0x78)], ["c"]);
    NullStopsWrite(reg, "c");
  }
}
