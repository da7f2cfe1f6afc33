/** Physical constants and the small numeric helpers the engine uses.
    The unit header of the repository is not part of this model: the values
    below are the SI ones, and every property proved about the engine uses
    only their positivity. */
module Units {

  /** M_PI, as a decimal. */
  const Pi: real := 3.141592653589793

  /** Speed of light, m/s. */
  const CLight: real := 299792458.0

  /** One parsec, m. */
  const Parsec: real := 30856775814913673.0

  /** std::max(a, b): returns b when a < b, otherwise a. */
  function Max(a: real, b: real): (r: real)
    ensures r >= a && r >= b
    ensures r == a || r == b
  {
    if a < b then b else a
  }

  /** fabs. */
  function Abs(x: real): (r: real)
    ensures r >= 0.0
    ensures r == x || r == -x
  {
    if x < 0.0 then -x else x
  }
}
