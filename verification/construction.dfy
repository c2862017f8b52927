/** Reflection and plug-in reads, which the record calls but cannot see, as an
    oracle: each attempt either yields an object, fails with an exception the
    record's catch clause names, or fails with one it does not. */
module Construction {
  import opened Values
  import opened Outcome

  datatype Built =
    | Made(obj: Value)
    | Caught  // an exception listed in the catch clause around the attempt
    | Thrown  // any other exception: it propagates to the record's caller

  /** - `construct(t)`: `t.getDeclaredConstructor().newInstance()` succeeds;
      - `fill(t, src)`: a fresh `t` reads itself from `src` (a Named or Keyless
        decoder, or the bytes of a raw object);
      - `custom(t, src)`: the registered custom deserializer for `t` reads
        `src`. */
  datatype Oracle = Oracle(
    construct: TypeId -> bool,
    fill: (TypeId, Value) -> Built,
    custom: (TypeId, Value) -> Built)

  /** Construct a fresh `t` and let it read `src`; a failed construction counts
      as caught, since every reflective exception is in the catch list. */
  function Attempt(oracle: Oracle, t: TypeId, src: Value): Built
  {
    if oracle.construct(t) then oracle.fill(t, src) else Caught
  }

  /** The value a guarded single read returns: caught failures become null. */
  function Settle(b: Built): Result<Value>
  {
    match b
    case Made(v) => Ok(v)
    case Caught => Ok(Null)
    case Thrown => Err(Escaped)
  }
}
