/** The Named codec as the record uses it. An encoder is the sequence of
    writes it has received; its bytes (`toBytes`) are that sequence, so the
    byte layout of the binary encoder is not part of this model. A decoder is
    the key -> value view of an encoding, where a later write of a key
    replaces an earlier one, and `getObject` returns exactly the value that
    was written (an identity codec). */
module NamedCodec {
  import opened Values
  import opened Outcome

  type Log = seq<Entry>

  /** The value a decoder built from `log` holds for each key. */
  function View(log: Log): map<string, Value>
    decreases |log|
  {
    if log == [] then map[]
    else View(log[..|log| - 1])[log[|log| - 1].key := log[|log| - 1].payload]
  }

  /** `getObject(key)` on a decoder: null for a key it does not hold. */
  function Lookup(view: map<string, Value>, key: string): Value {
    if key in view then view[key] else Null
  }

  /** Decoding a concatenation is decoding each part, the later part winning. */
  lemma {:induction false} ViewAppend(a: Log, b: Log)
    ensures View(a + b) == View(a) + View(b)
    decreases |b|
  {
    if b == [] {
      assert a + b == a;
    } else {
      var last := b[|b| - 1];
      var b' := b[..|b| - 1];
      assert (a + b)[..|a + b| - 1] == a + b';
      assert (a + b)[|a + b| - 1] == last;
      ViewAppend(a, b');
    }
  }

  /** Writes that all carry the same key and payload decode to that one pair,
      however many of them there are. */
  lemma {:induction false} ViewOfRepeats(log: Log, key: string, v: Value)
    requires forall i :: 0 <= i < |log| ==> log[i].key == key && log[i].payload == v
    ensures log == [] ==> View(log) == map[]
    ensures log != [] ==> View(log) == map[key := v]
    decreases |log|
  {
    if log != [] {
      ViewOfRepeats(log[..|log| - 1], key, v);
    }
  }

  /** A decoder over the bytes `bytes` (`newInstance(bytes)`): an encoder's
      output decodes to its view, and the empty array to the empty view; any
      other literal byte array is outside the model and is rejected. */
  function Decode(bytes: Value): (r: Result<map<string, Value>>)
    ensures bytes.Blob? ==> r == Ok(View(bytes.log))
    ensures bytes == Primitives(Byte, []) ==> r == Ok(map[])
    ensures !bytes.Blob? && bytes != Primitives(Byte, []) ==> r == Err(Malformed)
  {
    match bytes
    case Blob(log) => Ok(View(log))
    case Primitives(Byte, elems) => if elems == [] then Ok(map[]) else Err(Malformed)
    case _ => Err(Malformed)
  }

  /** The keys a `String[]` holds, when none of them is null. */
  function KeyList(v: Value): (r: Option<seq<string>>)
    requires v != Null && ClassOf(v) == ArrayOf(StringType)
    ensures r.Some? <==> forall i :: 0 <= i < |v.elems| ==> v.elems[i].Str?
    ensures r.Some? ==> |r.value| == |v.elems|
    ensures r.Some? ==> forall i :: 0 <= i < |v.elems| ==> v.elems[i] == Str(r.value[i])
    decreases |v.elems|
  {
    if v.elems == [] then Some([])
    else if !v.elems[0].Str? then None
    else
      match KeyList(Objects(StringType, v.elems[1..]))
      case None => None
      case Some(rest) => Some([v.elems[0].s] + rest)
  }
}
