// Rounding to four decimals, as the ramp writes its values (auto.py).
module Rounding {

  /** The nearest integer, ties to the even one. */
  function Nearest(y: real): int
  {
    var f := y.Floor;
    var d := y - f as real;
    if d < 0.5 then f else if d > 0.5 then f + 1 else if f % 2 == 0 then f else f + 1
  }

  /** `round(x, 4)`. */
  function Round4(x: real): real
  {
    Nearest(x * 10000.0) as real / 10000.0
  }

  function TenThousandths(n: int): real { n as real / 10000.0 }

  /** A number with at most four decimals. */
  ghost predicate OnGrid(x: real)
  {
    exists n: int :: x == TenThousandths(n)
  }

  lemma NearestMonotone(x: real, y: real)
    requires x <= y
    ensures Nearest(x) <= Nearest(y)
  {
  }

  lemma RoundMonotone(x: real, y: real)
    requires x <= y
    ensures Round4(x) <= Round4(y)
  {
    NearestMonotone(x * 10000.0, y * 10000.0);
  }

  lemma RoundOnGrid(x: real)
    ensures OnGrid(Round4(x)) && (OnGrid(x) ==> Round4(x) == x)
  {
    assert Round4(x) == TenThousandths(Nearest(x * 10000.0));
    if OnGrid(x) {
      var n: int :| x == TenThousandths(n);
      assert x * 10000.0 == n as real;
      assert (n as real).Floor == n;
    }
  }

  lemma RoundClose(x: real)
    ensures x - 0.00005 <= Round4(x) <= x + 0.00005
  {
    var y := x * 10000.0;
    assert y - 0.5 <= Nearest(y) as real <= y + 0.5;
  }
}
