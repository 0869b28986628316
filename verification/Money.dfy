/** Amounts in rupees as exact reals, rounded to paisa where the source rounds. */
module Money {
  /** `Math.round`: halves go up. */
  function RoundHalfUp(x: real): int { (x + 0.5).Floor }

  /** `Math.round(x * 100) / 100` */
  function Round2(x: real): real { RoundHalfUp(x * 100.0) as real / 100.0 }

  function MaxReal(a: real, b: real): real { if a < b then b else a }

  function MinReal(a: real, b: real): real { if a < b then a else b }

  /** A whole number of paisa, as every decimal column with two places holds. */
  predicate InPaisa(x: real) { (x * 100.0).Floor as real == x * 100.0 }

  lemma PaisaOf(x: real, n: int)
    requires x * 100.0 == n as real
    ensures InPaisa(x) && (x * 100.0).Floor == n
  {
  }

  lemma Round2IsInPaisa(x: real)
    ensures InPaisa(Round2(x))
  {
    PaisaOf(Round2(x), RoundHalfUp(x * 100.0));
  }

  lemma Round2KeepsPaisa(x: real)
    requires InPaisa(x)
    ensures Round2(x) == x
  {
    assert RoundHalfUp(x * 100.0) == (x * 100.0).Floor;
  }

  lemma PaisaAdd(x: real, y: real)
    requires InPaisa(x) && InPaisa(y)
    ensures InPaisa(x + y)
  {
    var a, b := (x * 100.0).Floor, (y * 100.0).Floor;
    PaisaOf(x + y, a + b);
  }

  lemma PaisaSubtract(x: real, y: real)
    requires InPaisa(x) && InPaisa(y)
    ensures InPaisa(x - y)
  {
    var a, b := (x * 100.0).Floor, (y * 100.0).Floor;
    PaisaOf(x - y, a - b);
  }

  lemma Round2IsMonotone(x: real, y: real)
    requires x <= y
    ensures Round2(x) <= Round2(y)
  {
    var a, b := RoundHalfUp(x * 100.0), RoundHalfUp(y * 100.0);
    FloorIsMonotone(x * 100.0 + 0.5, y * 100.0 + 0.5);
    assert a as real <= b as real;
  }

  lemma FloorIsMonotone(x: real, y: real)
    requires x <= y
    ensures x.Floor <= y.Floor
  {
  }

  /** Rounding moves an amount by at most half a paisa, and half a paisa goes up. */
  lemma Round2IsNear(x: real)
    ensures x - 0.005 < Round2(x) <= x + 0.005
  {
  }
}
