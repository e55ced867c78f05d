/** Python's `round`: to the nearest integer, and to the even one when two are equally near. */
module Rounding {
  function RoundHalfEven(x: real): (n: int)
    ensures -0.5 <= x - n as real <= 0.5
  {
    var below := x.Floor;
    var rest := x - below as real;
    if rest < 0.5 || (rest == 0.5 && below % 2 == 0) then below else below + 1
  }

  /** Half-way between two integers it is the even one. */
  lemma TiesGoToEven(x: real)
    requires x - x.Floor as real == 0.5
    ensures RoundHalfEven(x) % 2 == 0
  {
  }

  /** `round(x, 1)`. */
  function RoundTenth(x: real): (r: real)
    ensures -0.05 <= x - r <= 0.05
  {
    RoundHalfEven(x * 10.0) as real / 10.0
  }

  /** It is a whole number of tenths. */
  lemma WholeTenths(x: real)
    ensures 10.0 * RoundTenth(x) == RoundHalfEven(x * 10.0) as real
  {
  }
}
