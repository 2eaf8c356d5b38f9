// The smoothstep of the ramp (auto.py): how far it moves between two arguments.
module Smoothstep {

  function Smooth(mix: real): real
  {
    mix * mix * (3.0 - 2.0 * mix)
  }

  lemma Product(a: real, b: real)
    requires a >= 0.0 && b >= 0.0
    ensures a * b >= 0.0
  {
  }

  lemma Square(a: real)
    ensures a * a >= 0.0
  {
    if a >= 0.0 { Product(a, a); } else { Product(-a, -a); }
  }

  function Slope(a: real, b: real): real
  {
    3.0 * (a + b) - 2.0 * (a * a + a * b + b * b)
  }

  lemma SmoothDifference(a: real, b: real)
    ensures Smooth(b) - Smooth(a) == (b - a) * Slope(a, b)
  {
    assert Smooth(a) == 3.0 * (a * a) - 2.0 * (a * a * a);
    assert Smooth(b) == 3.0 * (b * b) - 2.0 * (b * b * b);
    assert (b - a) * (a + b) == b * b - a * a;
    assert (b - a) * (a * a + a * b + b * b) == b * b * b - a * a * a;
  }

  lemma SlopeRange(a: real, b: real)
    requires 0.0 <= a <= 1.0 && 0.0 <= b <= 1.0
    ensures 0.0 <= Slope(a, b) <= 1.5
  {
    Product(a, 3.0 - 2.0 * a - b);
    Product(b, 3.0 - 2.0 * b - a);
    assert Slope(a, b) == a * (3.0 - 2.0 * a - b) + b * (3.0 - 2.0 * b - a);
    Square(a + b - 1.0);
    Square(a - b);
    assert (a + b - 1.0) * (a + b - 1.0) == a * a + 2.0 * (a * b) + b * b - 2.0 * a - 2.0 * b + 1.0;
    assert (a - b) * (a - b) == a * a - 2.0 * (a * b) + b * b;
    assert 1.5 - Slope(a, b) == 1.5 * ((a + b - 1.0) * (a + b - 1.0)) + 0.5 * ((a - b) * (a - b));
  }

  /** The smoothstep rises, and never faster than one and a half times its argument. */
  lemma SmoothSteps(a: real, b: real)
    requires 0.0 <= a <= b <= 1.0
    ensures Smooth(a) <= Smooth(b) <= Smooth(a) + 1.5 * (b - a)
  {
    SmoothDifference(a, b);
    SlopeRange(a, b);
    Product(b - a, Slope(a, b));
    Product(b - a, 1.5 - Slope(a, b));
  }

  lemma SmoothRange(mix: real)
    requires 0.0 <= mix <= 1.0
    ensures 0.0 <= Smooth(mix) <= 1.0
  {
    SmoothSteps(0.0, mix);
    SmoothSteps(mix, 1.0);
  }
}
