/** Machine types, constants and small helpers shared by the reassembly model. */
module Common {
  /** Go's `math.MaxUint32`. */
  const MaxUint32: int := 0xFFFF_FFFF

  /** A TCP sequence number as carried on the wire. */
  type uint32 = x: int | 0 <= x <= 0xFFFF_FFFF
  /** A TCP port. */
  type uint16 = x: int | 0 <= x <= 0xFFFF
  type byte = x: int | 0 <= x <= 0xFF

  datatype Option<T> = None | Some(value: T)

  function Min(a: int, b: int): int { if a <= b then a else b }
  function Max(a: int, b: int): int { if a <= b then b else a }

  /** `o` lies in the half-open range [lo, hi). */
  predicate Within(o: int, lo: int, hi: int) { lo <= o < hi }

  /**
   * The half-open range [lo, hi) of absolute stream offsets. The bare bounds
   * make the set finite; `Within` gives the comprehension a trigger.
   */
  function Span(lo: int, hi: int): set<int>
  {
    set o | lo <= o < hi && Within(o, lo, hi)
  }
}
