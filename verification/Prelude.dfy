/** Types and sequence facts shared by every component. */
module Prelude {
  datatype Option<+T> = None | Some(value: T)
  datatype Result<+T, +E> = Ok(value: T) | Err(error: E)

  newtype byte = x: int | 0 <= x < 256

  type Bytes = seq<byte>

  const U64: nat := 0x1_0000_0000_0000_0000

  /** What `fetch_sub` leaves in a 64-bit counter. */
  function Minus(counter: nat, n: nat): nat { (counter + U64 - n % U64) % U64 }

  lemma MinusSmall(counter: nat, n: nat)
    requires n <= counter < U64
    ensures Minus(counter, n) == counter - n
  {
  }

  lemma Assoc<T>(x: seq<T>, y: seq<T>, z: seq<T>)
    ensures x + y + z == x + (y + z)
  {
  }
}
