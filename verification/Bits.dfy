/** Powers of two, integer logarithms and rounding on 64-bit words. */
module Bits {

  const TWO64: nat := 0x1_0000_0000_0000_0000
  const UINT64_MAX: nat := TWO64 - 1
  const PAGE_SIZE: nat := 4096

  function Pow2(n: nat): (p: nat)
    ensures p >= 1
  {
    if n == 0 then 1 else 2 * Pow2(n - 1)
  }

  lemma {:induction false} Pow2Mono(a: nat, b: nat)
    requires a <= b
    ensures Pow2(a) <= Pow2(b)
    decreases b
  {
    if a < b { Pow2Mono(a, b - 1); }
  }

  lemma {:induction false} Pow2Strict(a: nat, b: nat)
    ensures a < b <==> Pow2(a) < Pow2(b)
  {
    if a < b { Pow2Mono(a + 1, b); } else { Pow2Mono(b, a); }
  }

  lemma {:induction false} Pow2Add(a: nat, b: nat)
    ensures Pow2(a + b) == Pow2(a) * Pow2(b)
  {
    if b > 0 { Pow2Add(a, b - 1); }
  }

  /** The index of the highest set bit, 0 for 0. */
  function Log2(n: nat): nat {
    if n <= 1 then 0 else 1 + Log2(n / 2)
  }

  lemma {:induction false} Log2Bounds(n: nat)
    requires n > 0
    ensures Pow2(Log2(n)) <= n < Pow2(Log2(n) + 1)
  {
    if n > 1 { Log2Bounds(n / 2); }
  }

  lemma Log2Unique(n: nat, k: nat)
    requires Pow2(k) <= n < Pow2(k + 1)
    ensures Log2(n) == k
  {
    Log2Bounds(n);
    Pow2Strict(k, Log2(n) + 1);
    Pow2Strict(Log2(n), k + 1);
  }

  lemma Pow2At7()
    ensures Pow2(7) == 128
  {
    assert Pow2(3) == 8;
    Pow2Add(3, 3);
  }

  lemma Pow2At32()
    ensures Pow2(32) == 0x1_0000_0000
  {
    assert Pow2(4) == 16 by { assert Pow2(2) == 4; }
    hide Pow2;
    Pow2Add(4, 4);
    Pow2Add(8, 8);
    Pow2Add(16, 16);
  }

  lemma Pow2At64()
    ensures Pow2(64) == TWO64
  {
    hide Pow2;
    Pow2At32();
    Pow2Add(32, 32);
  }

  lemma Log2Small(n: nat)
    requires n < TWO64
    ensures Log2(n) < 64
  {
    if n > 0 {
      Log2Bounds(n);
      Pow2At64();
      Pow2Strict(Log2(n), 64);
    }
  }

  /** The least `k` with `n <= Pow2(k)`. */
  function Log2Ceil(n: nat): nat {
    if n <= 1 then 0 else Log2(n - 1) + 1
  }

  lemma Log2CeilBounds(n: nat)
    ensures n <= Pow2(Log2Ceil(n))
    ensures Log2Ceil(n) > 0 ==> Pow2(Log2Ceil(n) - 1) < n
  {
    if n > 1 { Log2Bounds(n - 1); }
  }

  /** Rounding up to a multiple of `q` in 64-bit arithmetic: wraps to 0 just below 2^64. */
  function AlignUp(x: nat, q: nat): nat
    requires q > 0
  {
    var y := (x + (q - 1)) % TWO64;
    y - y % q
  }

  lemma AlignUpAligned(x: nat, q: nat)
    requires q > 0 && x < TWO64 && x % q == 0 && TWO64 % q == 0
    ensures AlignUp(x, q) == x
  {
    MultipleBelow(x, TWO64, q);
    assert (x + (q - 1)) % TWO64 == x + (q - 1);
    SmallMod(x, q - 1, q);
  }

  function Min(a: nat, b: nat): nat { if a < b then a else b }

  lemma Assoc(a: nat, b: nat, c: nat)
    ensures a * (b * c) == (a * b) * c
  {
  }

  lemma MulMono(a: nat, b: nat, s: nat)
    requires a <= b
    ensures a * s <= b * s
  {
  }

  lemma NoWrap(x: nat, m: nat)
    requires x < m
    ensures x % m == x
  {
  }

  lemma WordEnd(x: nat)
    requires x <= TWO64
    ensures x % TWO64 == if x == TWO64 then 0 else x
  {
  }

  lemma Quotient(x: nat, d: nat)
    requires d >= 1
    ensures (x / d) * d <= x < (x / d + 1) * d
  {
  }

  lemma DivUnique(x: nat, s: nat, q: nat)
    requires s > 0 && q * s <= x < (q + 1) * s
    ensures x / s == q && x % s == x - q * s
  {
    var d := x / s;
    assert d * s <= x < (d + 1) * s;
    if d < q { MulMono(d + 1, q, s); }
    if q < d { MulMono(q + 1, d, s); }
  }

  lemma ModMultiple(k: nat, s: nat)
    requires s > 0
    ensures (k * s) % s == 0
  {
    DivUnique(k * s, s, k);
  }

  lemma Multiple(x: nat, q: nat) returns (k: nat)
    requires q > 0 && x % q == 0
    ensures x == k * q
  {
    k := x / q;
  }

  lemma MultipleBelow(x: nat, y: nat, q: nat)
    requires q > 0 && x % q == 0 && y % q == 0 && x < y
    ensures x + q <= y
  {
    var a := Multiple(x, q);
    var b := Multiple(y, q);
    if b <= a { MulMono(b, a, q); }
    MulMono(a + 1, b, q);
  }

  lemma SmallMod(x: nat, r: nat, q: nat)
    requires q > 0 && x % q == 0 && r < q
    ensures (x + r) % q == r
  {
    var a := Multiple(x, q);
    DivUnique(x + r, q, a);
  }

  lemma MultipleSum(x: nat, y: nat, q: nat)
    requires q > 0 && x % q == 0 && y % q == 0
    ensures (x + y) % q == 0
  {
    var a := Multiple(x, q);
    var b := Multiple(y, q);
    assert x + y == (a + b) * q;
    ModMultiple(a + b, q);
  }

  lemma MultipleDifference(x: nat, y: nat, q: nat)
    requires q > 0 && x % q == 0 && y % q == 0 && y <= x
    ensures (x - y) % q == 0
  {
    var a := Multiple(x, q);
    var b := Multiple(y, q);
    assert b <= a;
    assert x - y == (a - b) * q;
    ModMultiple(a - b, q);
  }

  /** What rounding up does when it does not wrap. */
  lemma AlignUpBounds(x: nat, q: nat)
    requires q > 0 && x + (q - 1) < TWO64
    ensures x <= AlignUp(x, q) < x + q && AlignUp(x, q) % q == 0
  {
    var y := x + (q - 1);
    assert y % TWO64 == y;
    var a := y / q;
    assert y - y % q == a * q;
    ModMultiple(a, q);
  }

  /** Rounding up wraps, to 0, exactly within the last `q - 1` values. */
  lemma AlignUpWraps(x: nat, q: nat)
    requires q > 0 && q < TWO64 && x < TWO64 && TWO64 % q == 0
    ensures AlignUp(x, q) % q == 0
    ensures x > 0 ==> (AlignUp(x, q) == 0 <==> x + (q - 1) >= TWO64)
  {
    if x + (q - 1) < TWO64 {
      AlignUpBounds(x, q);
    } else {
      var y := x + (q - 1) - TWO64;
      DivUnique(x + (q - 1), TWO64, 1);
      DivUnique(y, q, 0);
    }
  }

  // ---- addresses ----

  ghost function Above(s: set<nat>): (n: nat)
    ensures n > 0 && forall c | c in s :: c < n
  {
    if s == {} then 1
    else
      var c :| c in s;
      var n := Above(s - {c});
      assert forall x | x in s :: x == c || x in s - {c};
      if c < n then n else c + 1
  }

  /** There is always an unused address other than null. */
  lemma FreshAddress(s: set<nat>)
    ensures exists n: nat :: n !in s && n != 0
  {
    var n := Above(s);
    assert n !in s && n != 0;
  }
}
