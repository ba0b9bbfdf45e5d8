/** Products, quotients and remainders, with the few facts about them that the other modules need. */
module Arithmetic {

  function Times(a: nat, b: nat): (c: nat)
    ensures c == a * b
  {
    a * b
  }

  function Quotient(a: nat, b: nat): (q: nat)
    requires b > 0
    ensures q == a / b
  {
    a / b
  }

  lemma MulAtLeast(a: nat, b: nat)
    ensures a * b >= 0
    ensures a >= 1 && b >= 1 ==> a * b >= a && a * b >= b
  {
    if a >= 1 && b >= 1 {
      assert (a - 1) * b >= 0 && a * (b - 1) >= 0;
    }
  }

  lemma DivModUnique(a: int, b: int, q: int, r: int)
    requires b > 0 && 0 <= r < b && a == q * b + r
    ensures a / b == q && a % b == r
  {
    var x := a / b - q;
    assert x * b == r - a % b by {
      assert a == b * (a / b) + a % b;
      assert x * b == (a / b) * b - q * b;
    }
    if x >= 1 {
      MulMonotone(1, x, b);
    } else if x <= -1 {
      MulMonotone(x, -1, b);
    }
  }

  lemma QuotientIsPositive(a: nat, b: nat)
    requires b > 0
    ensures a / b != 0 <==> a >= b
  {
    assert a == b * (a / b) + a % b;
    if a < b {
      DivModUnique(a, b, 0, a);
    }
  }

  lemma MulMonotone(x: int, y: int, b: int)
    requires x <= y && b >= 0
    ensures x * b <= y * b
  {
    assert (y - x) * b >= 0;
  }
}
