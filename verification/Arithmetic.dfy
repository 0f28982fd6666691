/** Facts about multiplication, quotient and remainder that the slot arithmetic uses. */
module Arithmetic {

  function Quotient(a: nat, b: nat): (q: nat)
    requires 1 <= b
    ensures q * b <= a < q * b + b
  {
    a / b
  }

  lemma MulOrder(a: int, b: int, n: nat)
    requires a <= b
    ensures a * n <= b * n
  {
  }

  lemma MulStrict(a: int, b: int, n: nat)
    requires a < b && 1 <= n
    ensures a * n + n <= b * n
  {
    MulOrder(a + 1, b, n);
  }

  /** Quotient and remainder are unique. */
  lemma DivModUnique(q: int, r: int, n: nat)
    requires 0 <= r < n
    ensures (q * n + r) / n == q && (q * n + r) % n == r
  {
    var a := q * n + r;
    assert a == (a / n) * n + a % n;
    if a / n < q {
      MulStrict(a / n, q, n);
    } else if q < a / n {
      MulStrict(q, a / n, n);
    }
  }

  lemma DivModParts(a: int, n: nat)
    requires 1 <= n
    ensures a == (a / n) * n + a % n && 0 <= a % n < n
  {
  }

  /** Counting one further either stays in the row or starts the next one. */
  lemma DivModNext(a: nat, n: nat)
    requires 1 <= n
    ensures (a + 1) / n == (if a % n == n - 1 then a / n + 1 else a / n)
    ensures (a + 1) % n == (if a % n == n - 1 then 0 else a % n + 1)
  {
    DivModParts(a, n);
    if a % n == n - 1 {
      assert a + 1 == (a / n + 1) * n + 0;
      DivModUnique(a / n + 1, 0, n);
    } else {
      DivModUnique(a / n, a % n + 1, n);
    }
  }

  /** Quotient and remainder of any integer by a positive one. */
  function Quot(a: int, n: nat): (q: int)
    requires 1 <= n
    ensures q * n <= a < q * n + n
    decreases if a < 0 then -a else a
  {
    if a < 0 then (if -a <= n then -1 else Quot(a + n, n) - 1)
    else if a < n then 0
    else Quot(a - n, n) + 1
  }

  function Rem(a: int, n: nat): (r: nat)
    requires 1 <= n
    ensures r < n
  {
    a - Quot(a, n) * n
  }

  lemma RemUnique(a: int, q: int, r: nat, n: nat)
    requires r < n && a == q * n + r
    ensures Quot(a, n) == q && Rem(a, n) == r
  {
    var p := Quot(a, n);
    if p < q {
      MulStrict(p, q, n);
    } else if q < p {
      MulStrict(q, p, n);
    }
  }
}
