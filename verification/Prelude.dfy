/** Options, the search every table lookup uses, and the units of the clock. */
module Prelude {

  datatype Option<+T> = None | Some(value: T)

  /** The last row that satisfies p. */
  function FindLast<T>(rows: seq<T>, p: T -> bool): (r: Option<nat>)
    ensures r.Some? ==> r.value < |rows| && p(rows[r.value])
    ensures r.None? ==> forall i :: 0 <= i < |rows| ==> !p(rows[i])
  {
    if rows == [] then None
    else if p(rows[|rows| - 1]) then Some(|rows| - 1)
    else FindLast(rows[..|rows| - 1], p)
  }

  // A clock value is a whole number of microseconds, the resolution of a Python datetime.
  const SECOND: nat := 1_000_000
  const MINUTE: nat := 60 * SECOND
  const HOUR: nat := 60 * MINUTE
  const DAY: nat := 24 * HOUR
}
