/**
 * System.Index and System.Range, the types behind C#'s `^k` and `x..y` syntax.
 * An Index holds a non-negative int and says whether it counts from the start or from the end.
 */
module Ranges {
  import opened Numbers

  /** The values an Index may hold: `new Index(v)` throws for a negative `v`. */
  type IndexValue = v: int | 0 <= v <= MaxInt32

  datatype Index = Index(value: IndexValue, isFromEnd: bool) {

    /** `Index.GetOffset(length)`: `^k` is position `length - k`; a plain index is itself. */
    function GetOffset(length: int): int {
      if isFromEnd then length - value else value
    }
  }

  /** `x..y`: the start is inclusive, the end exclusive. */
  datatype Range = Range(start: Index, end: Index)

  /** `k` (counted from the start). */
  function FromStart(k: IndexValue): Index { Index(k, false) }

  /** `^k` (counted from the end). */
  function FromEnd(k: IndexValue): Index { Index(k, true) }

  /** `x..`: an omitted end is `^0`. */
  function StartAt(start: Index): Range { Range(start, FromEnd(0)) }

  /** `..y`: an omitted start is `0`. */
  function EndAt(end: Index): Range { Range(FromStart(0), end) }

  /** `..`, the same as `0..^0`. */
  const All: Range := Range(FromStart(0), FromEnd(0))
}
