/** The Keyless codec as the record uses it: a stream of untagged items that
    a reader consumes strictly in the order they were written. */
module KeylessCodec {
  import opened Values
  import opened Outcome

  /** One positional write: the primitive used and the value written. */
  datatype Item = Item(op: Op, payload: Value)

  type Stream = seq<Item>

  /** A decoder over `items` that has consumed the first `pos` of them. */
  datatype Reader = Reader(items: Stream, pos: nat)

  /** `writeByteArray(bytes)`: append one byte-array item. */
  function WriteByteArray(s: Stream, bytes: Value): (s': Stream)
    ensures |s'| == |s| + 1 && s'[..|s|] == s
    ensures s'[|s|] == Item(WriteScalarArray(Byte), bytes)
  {
    s + [Item(WriteScalarArray(Byte), bytes)]
  }

  /** `readByteArrayAsNative()`: consume the next item, which must have been
      written as a byte array; past the end, or on an item of another
      primitive, the read fails. */
  function ReadByteArrayAsNative(rd: Reader): (r: Result<(Value, Reader)>)
    ensures r.Ok? <==> rd.pos < |rd.items| && rd.items[rd.pos].op == WriteScalarArray(Byte)
    ensures r.Ok? ==> r.value == (rd.items[rd.pos].payload, Reader(rd.items, rd.pos + 1))
  {
    if rd.pos < |rd.items| && rd.items[rd.pos].op == WriteScalarArray(Byte) then
      Ok((rd.items[rd.pos].payload, Reader(rd.items, rd.pos + 1)))
    else
      Err(Malformed)
  }

  /** What is written is what the next read returns, and the read consumes
      exactly the one item. */
  lemma ByteArrayRoundTrip(s: Stream, bytes: Value)
    ensures ReadByteArrayAsNative(Reader(WriteByteArray(s, bytes), |s|))
         == Ok((bytes, Reader(WriteByteArray(s, bytes), |s| + 1)))
  {
  }
}
