/** Facts about numbers and sizes that the other modules share. */
module Arith {
  lemma MulMonotone(a: int, b: int, d: nat)
    requires a <= b
    ensures a * d <= b * d
  {
  }

  lemma MulPred(a: int, d: int)
    ensures (a - 1) * d == a * d - d && (a + 1) * d == a * d + d
  {
  }

  lemma UniqueQuotient(x: int, y: nat, q: int, r: nat, d: nat)
    requires y < d && r < d && x * d + y == q * d + r
    ensures x == q && y == r
  {
    assert (q + 1) * d == q * d + d && (x + 1) * d == x * d + d;
    if x > q {
      MulMonotone(q + 1, x, d);
    } else if x < q {
      MulMonotone(x + 1, q, d);
    }
  }

  lemma DivModOf(q: nat, r: nat, d: nat, a: nat)
    requires r < d && a == q * d + r
    ensures a / d == q && a % d == r
  {
    var x, y := a / d, a % d;
    assert a == x * d + y && 0 <= y < d;
    UniqueQuotient(x, y, q, r, d);
  }

  lemma DivModSucc(a: nat, d: nat)
    requires d > 0
    ensures (a + 1) / d == a / d + (if a % d + 1 == d then 1 else 0)
    ensures (a + 1) % d == if a % d + 1 == d then 0 else a % d + 1
  {
    var q, r := a / d, a % d;
    assert a == q * d + r;
    if r + 1 == d {
      assert (q + 1) * d == q * d + d;
      DivModOf(q + 1, 0, d, a + 1);
    } else {
      DivModOf(q, r + 1, d, a + 1);
    }
  }

  function Min(a: nat, b: nat): nat
  {
    if a < b then a else b
  }

  lemma {:induction false} SubsetSize<T>(a: set<T>, b: set<T>)
    requires a <= b
    ensures |a| <= |b| && (a != b ==> |a| < |b|)
  {
    if a != {} {
      var x :| x in a;
      SubsetSize(a - {x}, b - {x});
      assert a == a - {x} + {x} && b == b - {x} + {x};
    }
  }
}
