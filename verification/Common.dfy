/** Failure-carrying values and 64-bit counters shared by the models. */
module Common {
  datatype Option<+T> = None | Some(value: T)

  datatype Result<+T, +E> = Ok(value: T) | Err(error: E)

  const MAX_U64: nat := 0xffff_ffff_ffff_ffff

  /** A number as far as it fits in 64 bits. */
  function Saturated(n: nat): (r: nat)
    ensures r <= MAX_U64 && r <= n && (n <= MAX_U64 ==> r == n) && (n >= MAX_U64 ==> r == MAX_U64)
  {
    if n > MAX_U64 then MAX_U64 else n
  }

  /** A counter that counts one more, and stops when it is full. */
  function Increment(n: nat): (r: nat)
    ensures r <= MAX_U64 && (n < MAX_U64 ==> r == n + 1) && (n <= MAX_U64 ==> r >= n)
  {
    if n >= MAX_U64 then MAX_U64 else n + 1
  }
}
