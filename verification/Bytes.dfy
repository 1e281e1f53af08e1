/** Octets and the option type shared by the other modules. */
module Bytes {

  /** `u8_t` / `unsigned char`. */
  type byte = x: int | 0 <= x < 256

  /** `u16_t`. */
  type u16 = x: int | 0 <= x < 0x1_0000

  datatype Option<+T> = None | Some(value: T)

  lemma Assoc<T>(x: seq<T>, y: seq<T>, z: seq<T>)
    ensures x + y + z == x + (y + z)
  {
  }
}
