/** What every engine uses.  `None` stands for Python's `None` and JavaScript's `null`. */
module Common {
  datatype Option<+T> = None | Some(value: T)

  function Max(x: real, y: real): real { if x < y then y else x }

  function Min(x: real, y: real): real { if y < x then y else x }

  function Distance(x: real, y: real): real { if x < y then y - x else x - y }

  /** A parsed number that is positive. */
  function Positive(x: Option<real>): (r: Option<real>)
    ensures r.Some? ==> 0.0 < r.value
  {
    if x.Some? && 0.0 < x.value then x else None
  }
}
