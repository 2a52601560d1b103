/** What the other modules share. */
module Basics {

  datatype Option<T> = None | Some(value: T)

  type byte = x: int | 0 <= x < 256

  const WORD: nat := 0x1_0000_0000

  type cell = x: int | 0 <= x < WORD

  /** A number as a cell with a sign. */
  function Signed(v: int): int {
    (v + 0x8000_0000) % WORD - 0x8000_0000
  }

  /** What a bounded copy into a buffer keeps of a string. */
  function Clip(s: string, size: nat): string
    requires size > 0
  {
    if |s| < size then s else s[..size - 1]
  }

  predicate Contains(s: string, t: string) {
    (|s| >= |t| && s[..|t|] == t) || (s != "" && Contains(s[1..], t))
  }

  /** Two integers have a bit in common among the lowest. */
  predicate CommonBit(a: int, b: int, bits: nat)
    decreases bits
  {
    bits > 0 && ((a % 2 == 1 && b % 2 == 1) || CommonBit(a / 2, b / 2, bits - 1))
  }

  /** The chosen ones of a list, in order. */
  ghost function Among<T>(list: seq<T>, chosen: set<T>): seq<T> {
    if list == [] then []
    else if list[|list| - 1] in chosen then Among(list[..|list| - 1], chosen) + [list[|list| - 1]]
    else Among(list[..|list| - 1], chosen)
  }
}
