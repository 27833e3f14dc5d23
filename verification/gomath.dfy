/** Go numeric conversions the model needs. */
module GoMath {

  /** Go's conversion of a float to an int: truncation toward zero
      (values outside the integer range are not modelled). */
  function Trunc(x: real): (r: int)
    ensures x >= 0.0 ==> r as real <= x < r as real + 1.0
    ensures x < 0.0 ==> r as real - 1.0 < x <= r as real
  {
    if x >= 0.0 then x.Floor else -((-x).Floor)
  }
}
