/**
 * The dynamically typed values the Python code passes around in dicts, the
 * exceptions it raises on them, and `float()` on them.
 */
module Values {
  import opened Wrappers
  import opened Dates

  /** A Python value as found in a row dict: str, float, int, datetime or None. */
  datatype Value = Text(s: string) | Number(r: real) | Whole(i: int) | Day(d: Date) | Null

  /** The Python exceptions the core can raise. */
  datatype PyError = KeyError(key: string) | ValueError(message: string) | TypeError

  /**
   * `float(v)`: numbers convert exactly, strings go through the platform's
   * float parser (`parse`, `None` when it raises ValueError), anything else
   * raises TypeError.
   */
  function ToFloat(v: Value, parse: string -> Option<real>): (r: Result<real, PyError>)
    ensures v.Number? ==> r == Success(v.r)
    ensures v.Whole? ==> r == Success(v.i as real)
    ensures (v.Null? || v.Day?) ==> r == Failure(TypeError)
    ensures v.Text? ==> (r.Success? <==> parse(v.s).Some?)
    ensures v.Text? && r.Success? ==> Some(r.value) == parse(v.s)
    ensures v.Text? && r.Failure? ==> r.error.ValueError?
  {
    match v
    case Number(x) => Success(x)
    case Whole(i) => Success(i as real)
    case Text(s) => (match parse(s) case Some(x) => Success(x) case None => Failure(ValueError("could not convert string to float")))
    case _ => Failure(TypeError)
  }

  /** The numeric value of an int or float. */
  function Numeric(v: Value): real
    requires v.Number? || v.Whole?
  {
    if v.Number? then v.r else v.i as real
  }
}
