/** Octets and the few constants that several wire formats share. */
module Octets {
  /** One octet of a Go []byte. */
  newtype Octet = x: int | 0 <= x < 256

  const CR: Octet := 13
  const LF: Octet := 10
  const DOT: Octet := 46
  const CRLF: seq<Octet> := [CR, LF]

  /** The Option of the model: a value that may be missing. */
  datatype Option<+T> = None | Some(value: T)
}
