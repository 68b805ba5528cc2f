/** Types shared by the models: bytes, results, and Go's wrapping integers. */
module GoTypes {
  type byte = x: int | 0 <= x < 256
  type Bytes = seq<byte>

  datatype Option<+T> = None | Some(value: T)

  datatype Result<+T, +E> = Ok(value: T) | Err(error: E)

  const TWO16: int := 0x1_0000
  const TWO32: int := 0x1_0000_0000
  const TWO64: int := 0x1_0000_0000_0000_0000

  /** Two's complement reading of x in an integer type with `modulus` values. */
  function Wrap(x: int, modulus: int): (r: int)
    requires modulus > 0 && modulus % 2 == 0
    ensures -(modulus / 2) <= r < modulus / 2
  {
    var m := x % modulus;
    if m < modulus / 2 then m else m - modulus
  }

  lemma MultipleAtLeast(k: int, p: int)
    requires k >= 1 && p >= 0
    ensures k * p >= p
  {
  }

  lemma QuotientZero(k: int, p: int)
    requires -p < k * p < p
    ensures k == 0
  {
    if k >= 1 {
      MultipleAtLeast(k, p);
    } else if k <= -1 {
      MultipleAtLeast(-k, p);
    }
  }

  /** Wrapping moves a number by a multiple of the modulus ... */
  lemma WrapOff(x: int, modulus: int) returns (k: int)
    requires modulus > 0 && modulus % 2 == 0
    ensures Wrap(x, modulus) == x + k * modulus
  {
    k := if x % modulus < modulus / 2 then -(x / modulus) else -(x / modulus) - 1;
  }

  /** ... and only one multiple leads into the range. */
  lemma WrapIs(x: int, modulus: int, y: int, k: int)
    requires modulus > 0 && modulus % 2 == 0 && y == x + k * modulus && -(modulus / 2) <= y < modulus / 2
    ensures Wrap(x, modulus) == y
  {
    var j := WrapOff(x, modulus);
    assert (j - k) * modulus == Wrap(x, modulus) - y;
    QuotientZero(j - k, modulus);
  }

  function Int16(x: int): (r: int) { Wrap(x, TWO16) }
  function Int32(x: int): (r: int) { Wrap(x, TWO32) }
  function Int64(x: int): (r: int) { Wrap(x, TWO64) }
  function Uint64(x: int): (r: int) { x % TWO64 }
}
