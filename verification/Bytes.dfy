/** Byte strings. */
module Bytes {

  type byte = x: int | 0 <= x < 256

  function Concat(parts: seq<seq<byte>>): seq<byte> {
    if parts == [] then [] else Concat(parts[..|parts| - 1]) + parts[|parts| - 1]
  }
}
