/** Values shared by both copies of the backtest: pandas' missing float
    value, the Python errors the scripts can raise, and a trading position. */
module Common {

  /** One cell of a float column; `None` stands for NaN. */
  datatype Option<T> = None | Some(value: T)

  /** The exceptions a backtest run can end with. */
  datatype Error =
    | IndexError          // `.iloc[-1]` on a frame without rows
    | UnboundLocalError   // `portfolio_value` read after a loop that never ran

  datatype Result<T> = Ok(value: T) | Err(error: Error)

  /** +1 is long the spread (buy gold, sell silver), -1 short, 0 flat. */
  type Position = p: int | -1 <= p <= 1

  /** `z > c` on a float cell: every comparison with NaN is false. */
  predicate Gt(z: Option<real>, c: real) {
    z.Some? && z.value > c
  }

  /** `z < c` on a float cell: every comparison with NaN is false. */
  predicate Lt(z: Option<real>, c: real) {
    z.Some? && z.value < c
  }

  /** `abs` on a float cell; the absolute value of NaN is NaN. */
  function AbsCell(z: Option<real>): (a: Option<real>)
    ensures a.Some? <==> z.Some?
    ensures a.Some? ==> a.value >= 0.0 && (a.value == z.value || a.value == -z.value)
  {
    match z
    case None => None
    case Some(v) => Some(if v < 0.0 then -v else v)
  }

  /** A NaN cell is neither above nor below any threshold, a defined cell is
      above, below or at it, and `abs(z) < c` holds exactly when `-c < z < c`. */
  lemma CellComparisons(z: Option<real>, c: real)
    ensures z.None? ==> !Gt(z, c) && !Lt(z, c) && !Lt(AbsCell(z), c)
    ensures z.Some? ==> Gt(z, c) || Lt(z, c) || z.value == c
    ensures Lt(AbsCell(z), c) <==> Gt(z, -c) && Lt(z, c)
  {
  }
}
