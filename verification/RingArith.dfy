/** Quotient, remainder and product of naturals by repeated subtraction and addition. They are the
    built-in `/`, `%` and `*` (BuiltIn below); defining them this way keeps every other proof about
    parts and rings free of non-linear arithmetic. */
module RingArith {

  type pos = x: int | 0 < x witness 1

  function Div(a: nat, k: pos): nat {
    if a < k then 0 else 1 + Div(a - k, k)
  }

  function Mod(a: nat, k: pos): (r: nat)
    ensures r < k
  {
    if a < k then a else Mod(a - k, k)
  }

  function Mul(n: nat, k: pos): nat {
    if n == 0 then 0 else Mul(n - 1, k) + k
  }

  lemma {:induction false} MulIsTimes(n: nat, k: pos)
    ensures Mul(n, k) == n * k
  {
    if n > 0 {
      MulIsTimes(n - 1, k);
      assert (n - 1) * k == n * k - k;
    }
  }

  lemma {:induction false} BuiltIn(a: nat, k: pos)
    ensures Div(a, k) == a / k && Mod(a, k) == a % k
  {
    DivMod(a, k);
    MulIsTimes(Div(a, k), k);
    QuotientUnique(a, Div(a, k), Mod(a, k), k);
  }

  lemma {:induction false} AtLeastOnce(d: nat, k: pos)
    requires d >= 1
    ensures d * k >= k
  {
  }

  lemma {:induction false} QuotientUnique(a: nat, q: nat, r: nat, k: pos)
    requires a == q * k + r && r < k
    ensures q == a / k && r == a % k
  {
    var x := a / k;
    assert a == x * k + a % k;
    assert (x - q) * k == x * k - q * k;
    assert (q - x) * k == q * k - x * k;
    if x > q {
      AtLeastOnce(x - q, k);
    } else if q > x {
      AtLeastOnce(q - x, k);
    }
  }

  lemma {:induction false} DivMod(a: nat, k: pos)
    ensures a == Mul(Div(a, k), k) + Mod(a, k)
    decreases a
  {
    if a >= k {
      DivMod(a - k, k);
    }
  }

  lemma {:induction false} MulAdd(m: nat, n: nat, k: pos)
    ensures Mul(m + n, k) == Mul(m, k) + Mul(n, k)
  {
    if n > 0 {
      MulAdd(m, n - 1, k);
      assert m + n - 1 == m + (n - 1);
    }
  }

  lemma {:induction false} MulOrder(m: nat, n: nat, k: pos)
    requires m < n
    ensures Mul(m, k) + k <= Mul(n, k)
    decreases n
  {
    if m < n - 1 {
      MulOrder(m, n - 1, k);
    }
  }

  lemma {:induction false} DivUnique(a: nat, q: nat, k: pos)
    requires Mul(q, k) <= a < Mul(q, k) + k
    ensures Div(a, k) == q && Mod(a, k) == a - Mul(q, k)
  {
    DivMod(a, k);
    if q < Div(a, k) {
      MulOrder(q, Div(a, k), k);
    } else if Div(a, k) < q {
      MulOrder(Div(a, k), q, k);
    }
  }

  /** Numbers less than k apart have different remainders. */
  lemma {:induction false} ModDistinct(a: nat, b: nat, k: pos)
    requires a < b < a + k
    ensures Mod(a, k) != Mod(b, k)
  {
    DivMod(a, k);
    DivMod(b, k);
    if Div(a, k) < Div(b, k) {
      MulOrder(Div(a, k), Div(b, k), k);
    } else if Div(b, k) < Div(a, k) {
      MulOrder(Div(b, k), Div(a, k), k);
    }
  }
}
