/** Error outcomes of the estimator, and the Option/Result wrappers that carry them. */
module Results {

  /** The failures the Fastfood estimator can raise.
      NotFitted:     a fitted attribute is read before `fit` ran (AttributeError).
      ShapeMismatch: numpy cannot combine the operands' shapes (ValueError).
      ZeroDivision:  a division by zero in Python scalar arithmetic (ZeroDivisionError).
      NonFiniteToInt: `int` applied to an infinite float (OverflowError) or to NaN (ValueError). */
  datatype Error = NotFitted | ShapeMismatch | ZeroDivision | NonFiniteToInt

  datatype Option<+T> = None | Some(value: T)

  datatype Result<+T> = Success(value: T) | Failure(error: Error)
}
