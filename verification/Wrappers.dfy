/** The optional value used for every nullable column and for CAS methods that return a number or nothing. */
module Wrappers {
  datatype Option<+T> = None | Some(value: T)

  // Every instant is a count of time units since an arbitrary epoch.
  type Time = int

  // The column test `column IS NOT NULL AND column <= at`.
  predicate NotAfter(column: Option<Time>, at: Time) {
    column.Some? && column.value <= at
  }

  function Larger(x: int, y: int): int {
    if x > y then x else y
  }

  function Smaller(x: int, y: int): int {
    if x < y then x else y
  }

  // A conditional UPDATE either changes its row, or finds no row; an argument check may raise before it.
  datatype CasOutcome = Hit | Miss | ValueError

  function Truncated(text: string, limit: nat): (r: string)
    ensures |r| <= limit && r <= text
    ensures |text| <= limit ==> r == text
  {
    if |text| <= limit then text else text[..limit]
  }
}
