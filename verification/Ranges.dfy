/** Byte ranges. */
module Ranges {

  predicate Within(b: int, offset: int, width: int) {
    offset <= b < offset + width
  }

  function Bytes(offset: int, width: int): set<int> {
    set b | offset <= b < offset + width && Within(b, offset, width)
  }
}
