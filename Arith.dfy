/** Counting fixed-length slots in a window: the facts about whole-number
    division that the slot counts rest on. */
module Arith {

  lemma MulMonotone(a: int, b: int, d: int)
    requires d >= 0
    ensures a <= b ==> a * d <= b * d
  {
    assert b * d - a * d == (b - a) * d;
  }

  /** Quotient and remainder are the only such pair. */
  lemma DivUnique(x: int, d: int, q: int, r: int)
    requires d > 0 && 0 <= r < d && x == q * d + r
    ensures x / d == q && x % d == r
  {
    var q', r' := x / d, x % d;
    assert q * d - q' * d == (q - q') * d;
    MulMonotone(1, q - q', d);
    MulMonotone(1, q' - q, d);
  }

  /** ⌈n / d⌉ */
  function CeilDiv(n: nat, d: nat): nat
    requires d > 0
  {
    (n + d - 1) / d
  }

  /** k is ⌈n / d⌉ exactly when k pieces of length d reach n and k - 1 do not. */
  lemma CeilDivUnique(n: nat, d: nat, k: nat)
    requires d > 0
    ensures k == CeilDiv(n, d) <==> (k * d >= n && (k - 1) * d < n)
  {
    var q := CeilDiv(n, d);
    var r := (n + d - 1) % d;
    assert n + d - 1 == q * d + r;
    assert (q - 1) * d == q * d - d;
    assert q * d >= n && (q - 1) * d < n;
    MulMonotone(q, k - 1, d);
    MulMonotone(k, q - 1, d);
  }

  /** k is ⌊n / d⌋ exactly when k pieces of length d fit in n and k + 1 do not. */
  lemma FloorDivUnique(n: nat, d: nat, k: nat)
    requires d > 0
    ensures k == n / d <==> (k * d <= n && (k + 1) * d > n)
  {
    var q, r := n / d, n % d;
    assert n == q * d + r;
    assert (q + 1) * d == q * d + d;
    assert (k + 1) * d == k * d + d;
    MulMonotone(q + 1, k, d);
    MulMonotone(k + 1, q, d);
  }

  /** ⌈n / d⌉ is ⌊n / d⌋, plus one when d does not divide n. */
  lemma CeilIsFloorPlusRemainder(n: nat, d: nat)
    requires d > 0
    ensures CeilDiv(n, d) == if n % d == 0 then n / d else n / d + 1
  {
    var q, r := n / d, n % d;
    assert n == q * d + r;
    if r == 0 {
      DivUnique(n + d - 1, d, q, d - 1);
    } else {
      assert n + d - 1 == (q + 1) * d + (r - 1);
      DivUnique(n + d - 1, d, q + 1, r - 1);
    }
  }
}
