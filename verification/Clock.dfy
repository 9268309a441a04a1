/** Turning counter ticks into nanoseconds by a multiplication and a shift. */
module Clock {
  import opened Bits

  const TWO128: nat := TWO64 * TWO64

  /** The largest product that keeps the multiplier within 64 bits. */
  function Limit(denominator: nat): nat { denominator * UINT64_MAX }

  /** Shifting by `s` keeps the multiplier `numerator * 2^s / denominator` within 64 bits. */
  predicate Keeps(numerator: nat, denominator: nat, s: nat) { numerator * Pow2(s) <= Limit(denominator) }

  /** A left shift of a 128-bit word. */
  function Shifted(numerator: nat, s: nat): nat { (numerator * Pow2(s)) % TWO128 }

  /** `s` is the largest shift that keeps the multiplier within 64 bits. */
  ghost predicate Largest(n: nat, d: nat, s: nat) {
    Keeps(n, d, s) && forall t: nat | Keeps(n, d, t) :: t <= s
  }

  // ---- what bisection looks at on the way to a shift ----

  /** Bit `i` of `s` is clear. */
  predicate BitClear(s: nat, i: nat) { (s / Pow2(i)) % 2 == 0 }

  /** The shift above `s` that bisection tries before it settles bit `i` of `s`, when that bit is clear: the bits of `s`
      above `i`, then a one, then zeros. */
  function Probe(s: nat, i: nat): nat { (s / Pow2(i) + 1) * Pow2(i) }

  /** The test of a shift by `m` fails. */
  predicate Refused(n: nat, d: nat, m: nat) { Shifted(n, m) > Limit(d) }

  /** The probes above `s` for its bits from `i` on are refused. */
  predicate ProbesRefused(n: nat, d: nat, s: nat, i: nat) {
    forall j | i <= j < 7 && BitClear(s, j) :: Refused(n, d, Probe(s, j))
  }

  /** The denominator lies between `numerator * 2^k` and twice that. */
  predicate Between(n: nat, d: nat, k: nat) { n * Pow2(k) < d <= n * Pow2(k + 1) }

  /** No shift that is too large looks small enough for having lost bits: either the numerator is not below the
      denominator, or, `k` being the number of doublings that keep it below, the numerator shifted by any of the (at
      most six) probes above `k` is not below the denominator even when it is cut to 64 bits. */
  predicate Faithful(n: nat, d: nat) {
    n >= d >= 1
    || (0 < n < d && forall k, i | 0 <= k < 64 && 0 <= i < 6 && Between(n, d, k) && BitClear(k, i) ::
          (n * Pow2(Probe(k, i))) % TWO64 >= d)
  }

  lemma KeepsMono(n: nat, d: nat, s: nat, t: nat)
    requires s <= t && Keeps(n, d, t)
    ensures Keeps(n, d, s)
  {
    Pow2Mono(s, t);
    MulMono2(n, Pow2(s), Pow2(t));
  }

  lemma MulMono2(n: nat, a: nat, b: nat)
    requires a <= b
    ensures n * a <= n * b
  {
  }

  lemma Pow2At128()
    ensures Pow2(128) == TWO128
  {
    Pow2At64();
    Pow2Add(64, 64);
  }

  /** A shift by `s` loses no bits of a number below `2^(128 - s)`. */
  lemma NotTruncated(n: nat, s: nat)
    requires s <= 128 && n < Pow2(128 - s)
    ensures Shifted(n, s) == n * Pow2(s)
  {
    hide Pow2;
    Pow2At128();
    Pow2Add(128 - s, s);
    var a, z := Pow2(128 - s), Pow2(s);
    StrictMul(n, a, z);
    NoWrap(n * z, TWO128);
  }

  lemma StrictMul(a: nat, b: nat, s: nat)
    requires a < b && s > 0
    ensures a * s < b * s
  {
  }

  /** From 64 on a shift is too much exactly for a numerator that is not below the denominator. */
  lemma KeepsAt64(n: nat, d: nat)
    requires 1 <= d < TWO64 && n < TWO64
    ensures Keeps(n, d, 64) <==> n < d
  {
    Pow2At64();
    hide Pow2;
    if n < d {
      MulMono(n + 1, d, TWO64);
    } else {
      MulMono(d, n, TWO64);
    }
  }

  /** Finds the largest shift by bisection, exactly for the faithful inputs. */
  method FindReciprocalShift(numerator: nat, denominator: nat) returns (s: nat)
    requires numerator < TWO64 && denominator < TWO64
    ensures s <= 127
    ensures Largest(numerator, denominator, s) <==> Faithful(numerator, denominator)
  {
    hide Keeps, Shifted, Pow2, Largest, Limit, Faithful, ProbesRefused, BitClear, Probe;
    var n, d := numerator, denominator;
    ghost var proper := 0 < n && 0 < d;
    ghost var best := if proper then LargestShift(n, d) else 0;
    if proper { NoProbesYet(n, d, best); }
    var lo: nat, hi: nat := 0, 127;
    ghost var i: nat, q: nat := 7, 0;
    assert Pow2(7) == 128 by { Pow2At7(); }
    while lo < hi
      invariant i <= 7 && lo == q * Pow2(i) && hi + 1 == lo + Pow2(i) <= 128
      invariant proper ==> best <= hi && (lo <= best ==> ProbesRefused(n, d, best, i))
      invariant proper && Faithful(n, d) ==> lo <= best
      decreases hi - lo
    {
      RangeHalves(lo, hi, i, q);
      var mid := (lo + hi + 1) / 2;
      if proper { Tried(n, d, best, lo, hi, mid, i, q); }
      if Shifted(n, mid) <= Limit(d) {
        lo := mid;
        q := 2 * q + 1;
      } else {
        hi := mid - 1;
        q := 2 * q;
      }
      i := i - 1;
    }
    Settled(lo, hi, i, q);
    if proper {
      LargestUnique(n, d, best, lo);
      if lo <= best { FaithfulIff(n, d, best); }
    } else {
      NoLargest(n, d, lo);
    }
    return lo;
  }

  lemma IsLargest(n: nat, d: nat, s: nat)
    requires Keeps(n, d, s) && !Keeps(n, d, s + 1)
    ensures Largest(n, d, s)
  {
    hide Keeps;
    forall t: nat | Keeps(n, d, t)
      ensures t <= s
    {
      if t > s { KeepsMono(n, d, s + 1, t); }
    }
  }

  /** The largest shift, for a numerator and a denominator that are not zero. */
  ghost function LargestShift(n: nat, d: nat): (s: nat)
    requires 0 < n < TWO64 && 0 < d < TWO64
    ensures Largest(n, d, s) && s <= 127
  {
    KeepsAtZero(n, d);
    TooMuchAt128(n, d);
    LargestBelow(n, d, 127)
  }

  ghost function LargestBelow(n: nat, d: nat, t: nat): (s: nat)
    requires Keeps(n, d, 0) && !Keeps(n, d, t + 1)
    ensures Largest(n, d, s) && s <= t
  {
    if Keeps(n, d, t) then IsLargest(n, d, t); t else LargestBelow(n, d, t - 1)
  }

  lemma LargestUnique(n: nat, d: nat, s: nat, t: nat)
    requires Largest(n, d, s)
    ensures Largest(n, d, t) <==> s == t
  {
    hide Keeps;
  }

  /** With a numerator or a denominator of zero there is no largest shift. */
  lemma NoLargest(n: nat, d: nat, s: nat)
    requires n == 0 || d == 0
    ensures !Largest(n, d, s) && !Faithful(n, d)
  {
    if n == 0 {
      assert Keeps(n, d, s + 1);
    } else {
      hide Pow2;
      MulMono(1, n, Pow2(s));
    }
  }

  lemma TooMuchAt128(n: nat, d: nat)
    requires 0 < n && d < TWO64
    ensures !Keeps(n, d, 128)
  {
    Pow2At128();
    hide Pow2;
    MulMono(1, n, TWO128);
    MulMono(d, TWO64, UINT64_MAX);
  }

  lemma KeepsAtZero(n: nat, d: nat)
    requires 1 <= d && n < TWO64
    ensures Keeps(n, d, 0)
  {
    assert Pow2(0) == 1;
    MulMono(1, d, UINT64_MAX);
  }

  // ---- one round of the bisection ----

  lemma NoProbesYet(n: nat, d: nat, s: nat)
    requires s <= 127
    ensures ProbesRefused(n, d, s, 7)
  {
  }

  lemma RangeHalves(lo: nat, hi: nat, i: nat, q: nat)
    requires lo < hi && lo == q * Pow2(i) && hi + 1 == lo + Pow2(i)
    ensures i > 0 && (lo + hi + 1) / 2 == (2 * q + 1) * Pow2(i - 1)
    ensures lo == (2 * q) * Pow2(i - 1) && lo + 2 * Pow2(i - 1) == hi + 1
  {
    assert i > 0;
    var h := Pow2(i - 1);
    assert Pow2(i) == 2 * h;
    hide Pow2;
    assert q * (2 * h) == (2 * q) * h;
    assert (2 * q + 1) * h == lo + h;
  }

  lemma Settled(lo: nat, hi: nat, i: nat, q: nat)
    requires lo >= hi && lo == q * Pow2(i) && hi + 1 == lo + Pow2(i)
    ensures i == 0 && lo == hi
  {
  }

  /** Within the current range the shift tried is the probe for the next bit of `s`, and its test tells whether that
      bit is set unless bits were lost. */
  lemma Tried(n: nat, d: nat, s: nat, lo: nat, hi: nat, mid: nat, i: nat, q: nat)
    requires n < TWO64 && 0 < n && 0 < d < TWO64 && Largest(n, d, s) && 0 < i <= 7 && hi <= 127 && s <= hi
    requires lo == (2 * q) * Pow2(i - 1) && mid == (2 * q + 1) * Pow2(i - 1) && lo + 2 * Pow2(i - 1) == hi + 1
    requires lo <= s ==> ProbesRefused(n, d, s, i)
    requires Faithful(n, d) ==> lo <= s
    ensures Refused(n, d, mid) ==> s < mid && (lo <= s ==> ProbesRefused(n, d, s, i - 1))
    ensures !Refused(n, d, mid) ==> mid <= s ==> ProbesRefused(n, d, s, i - 1)
    ensures !Refused(n, d, mid) && Faithful(n, d) ==> mid <= s
  {
    hide Pow2, Keeps, Largest, Faithful, Shifted, Limit, Refused, BitClear, Probe;
    if Refused(n, d, mid) { RefusedTooLarge(n, d, s, mid); }
    if lo <= s {
      NextBit(s, lo, mid, i - 1, q);
      if Faithful(n, d) { FaithfulIff(n, d, s); }
    }
  }

  lemma NextBit(s: nat, lo: nat, mid: nat, i: nat, q: nat)
    requires lo == (2 * q) * Pow2(i) && mid == (2 * q + 1) * Pow2(i) && lo <= s < lo + 2 * Pow2(i)
    ensures BitClear(s, i) <==> s < mid
    ensures BitClear(s, i) ==> Probe(s, i) == mid
  {
    hide Pow2;
    var h := Pow2(i);
    if s < mid {
      DivUnique(s, h, 2 * q);
    } else {
      assert (2 * q + 1 + 1) * h == lo + 2 * h;
      DivUnique(s, h, 2 * q + 1);
    }
  }

  /** A refused shift is too large: losing bits only makes the shifted word smaller. */
  lemma RefusedTooLarge(n: nat, d: nat, s: nat, m: nat)
    requires Largest(n, d, s) && Refused(n, d, m)
    ensures s < m
  {
    var x := n * Pow2(m);
    assert x % TWO128 <= x;
    if m <= s { KeepsMono(n, d, m, s); }
  }

  // ---- the probes, in 64-bit terms ----

  /** The inputs are faithful exactly if all probes above the largest shift are refused. */
  lemma FaithfulIff(n: nat, d: nat, s: nat)
    requires 0 < n < TWO64 && 0 < d < TWO64 && Largest(n, d, s) && s <= 127
    ensures Faithful(n, d) <==> ProbesRefused(n, d, s, 0)
  {
    hide Pow2, Keeps, Shifted, Limit, Refused, BitClear, Probe, Between;
    KeepsAt64(n, d);
    if n >= d {
      if s >= 64 { hide Largest; KeepsMono(n, d, 64, s); }
      forall j | 0 <= j < 7 && BitClear(s, j)
        ensures Refused(n, d, Probe(s, j))
      {
        LowProbe(n, d, s, j);
      }
    } else {
      var k := s - 64;
      BetweenIff(n, d, s);
      HighBit(s);
      forall j | 0 <= j < 6
        ensures BitClear(s, j) <==> BitClear(k, j)
        ensures Refused(n, d, Probe(s, j)) <==> (n * Pow2(Probe(k, j))) % TWO64 >= d
      {
        SameProbe(s, j);
        RefusedHigh(n, d, Probe(k, j));
      }
    }
  }

  /** Where the numerator is not below the denominator the probes above the largest shift lose no bits. */
  lemma LowProbe(n: nat, d: nat, s: nat, j: nat)
    requires d <= n < TWO64 && s < 64 && j < 7 && Largest(n, d, s)
    ensures Refused(n, d, Probe(s, j))
  {
    hide Pow2, Probe, Shifted, Keeps;
    var m := Probe(s, j);
    ProbeRange(s, j);
    Pow2At64();
    Pow2Mono(64, 128 - m);
    NotTruncated(n, m);
    RefusedIff(n, d, m);
  }

  lemma RefusedIff(n: nat, d: nat, m: nat)
    requires Shifted(n, m) == n * Pow2(m)
    ensures Refused(n, d, m) <==> !Keeps(n, d, m)
  {
  }

  lemma ProbeRange(s: nat, j: nat)
    requires s < 64 && j < 7
    ensures s < Probe(s, j) <= 64
  {
    var z := Pow2(j);
    Pow2Add(j, 6 - j);
    assert Pow2(6) == 64 by { assert Pow2(3) == 8; }
    var r := Pow2(6 - j);
    hide Pow2;
    Quotient(s, z);
    if s / z >= r { MulMono(r, s / z, z); }
    MulMono(s / z + 1, r, z);
  }

  /** From 64 on a shift is small enough as long as the numerator stays below the denominator. */
  lemma KeepsHigh(n: nat, d: nat, k: nat)
    requires 1 <= d < TWO64
    ensures Keeps(n, d, 64 + k) <==> n * Pow2(k) < d
  {
    hide Pow2;
    Pow2At64();
    Pow2Add(k, 64);
    var x := n * Pow2(k);
    Assoc(n, Pow2(k), TWO64);
    if x < d { MulMono(x + 1, d, TWO64); } else { MulMono(d, x, TWO64); }
  }

  lemma BetweenIff(n: nat, d: nat, s: nat)
    requires 0 < n < d < TWO64 && Largest(n, d, s)
    ensures s >= 64 && forall k: nat :: Between(n, d, k) <==> k == s - 64
  {
    hide Pow2, Keeps;
    KeepsAt64(n, d);
    forall k: nat
      ensures Between(n, d, k) <==> k == s - 64
    {
      KeepsHigh(n, d, k);
      KeepsHigh(n, d, k + 1);
      if 64 + k < s { KeepsMono(n, d, 64 + k + 1, s); }
      if s <= 64 + k { if s < 64 + k { assert !Keeps(n, d, 64 + k); } }
    }
  }

  lemma HighBit(s: nat)
    requires 64 <= s < 128
    ensures !BitClear(s, 6)
  {
    assert Pow2(6) == 64 by { assert Pow2(3) == 8; }
    DivUnique(s, 64, 1);
  }

  lemma SameProbe(s: nat, j: nat)
    requires s >= 64 && j < 6
    ensures BitClear(s, j) <==> BitClear(s - 64, j)
    ensures Probe(s, j) == 64 + Probe(s - 64, j)
  {
    var z, h := Pow2(j), Pow2(5 - j);
    assert Pow2(6) == 64 by { assert Pow2(3) == 8; }
    Pow2Add(j, 6 - j);
    assert Pow2(6 - j) == 2 * h;
    hide Pow2;
    var q := (s - 64) / z;
    Quotient(s - 64, z);
    assert (q + 2 * h) * z == q * z + 64;
    assert (q + 2 * h + 1) * z == (q + 1) * z + 64;
    DivUnique(s, z, q + 2 * h);
  }

  /** The test of a shift by `64 + m` looks at the numerator shifted by `m` in a 64-bit word. */
  lemma RefusedHigh(n: nat, d: nat, m: nat)
    requires 1 <= d < TWO64
    ensures Refused(n, d, 64 + m) <==> (n * Pow2(m)) % TWO64 >= d
  {
    hide Pow2;
    Pow2At64();
    Pow2Add(m, 64);
    var x := n * Pow2(m);
    Assoc(n, Pow2(m), TWO64);
    var r, q := x % TWO64, x / TWO64;
    assert x * TWO64 == q * TWO128 + r * TWO64;
    DivUnique(x * TWO64, TWO128, q);
    if r < d { MulMono(r + 1, d, TWO64); } else { MulMono(d, r, TWO64); }
  }

  /** A numerator of 32 bits, not too small against the denominator, is faithful: no shift tried loses bits. */
  lemma SmallIsFaithful(n: nat, d: nat)
    requires 0 < n < 0x1_0000_0000 && 0 < d < n * 0x1_0000_0000
    ensures Faithful(n, d)
  {
    Pow2At32();
    hide Pow2, BitClear, Probe;
    if n < d {
      forall k, i | 0 <= k < 64 && 0 <= i < 6 && Between(n, d, k) && BitClear(k, i)
        ensures (n * Pow2(Probe(k, i))) % TWO64 >= d
      {
        SmallProbe(n, d, k, i);
      }
    }
  }

  lemma SmallProbe(n: nat, d: nat, k: nat, i: nat)
    requires 0 < n < 0x1_0000_0000 && 0 < d < n * 0x1_0000_0000 && i < 6 && Between(n, d, k)
    ensures (n * Pow2(Probe(k, i))) % TWO64 >= d
  {
    Pow2At32();
    if k >= 32 {
      Pow2Mono(32, k);
      MulMono2(n, Pow2(32), Pow2(k));
      assert false;
    }
    var m := Probe(k, i);
    ProbeRange32(k, i);
    Pow2Mono(k + 1, m);
    Pow2Mono(m, 32);
    hide Pow2, Probe;
    MulMono2(n, Pow2(k + 1), Pow2(m));
    MulMono2(n, Pow2(m), 0x1_0000_0000);
    NoWrap(n * Pow2(m), TWO64);
  }

  lemma ProbeRange32(s: nat, j: nat)
    requires s < 32 && j < 6
    ensures s < Probe(s, j) <= 32
  {
    var z := Pow2(j);
    Pow2Add(j, 5 - j);
    assert Pow2(5) == 32 by { assert Pow2(3) == 8; }
    var r := Pow2(5 - j);
    hide Pow2;
    Quotient(s, z);
    if s / z >= r { MulMono(r, s / z, z); }
    MulMono(s / z + 1, r, z);
  }

  /** A multiple of 2^32 below the denominator is not: the probe 32 (a shift by 96) loses all its bits. */
  lemma MultipleIsNotFaithful(n: nat, d: nat)
    requires 0 < n < d < TWO64 && n % 0x1_0000_0000 == 0
    ensures !Faithful(n, d)
  {
    hide Pow2, Keeps, Largest, BitClear, Probe;
    var j := Multiple(n, 0x1_0000_0000);
    Pow2At32();
    var s := LargestShift(n, d);
    BetweenIff(n, d, s);
    var k := s - 64;
    assert Between(n, d, k);
    if k >= 32 {
      Pow2Mono(32, k);
      MulMono2(n, 0x1_0000_0000, Pow2(k));
      assert false;
    }
    ProbeAt32(k);
    assert n * 0x1_0000_0000 == j * TWO64;
    ModMultiple(j, TWO64);
  }

  lemma ProbeAt32(k: nat)
    requires k < 32
    ensures BitClear(k, 5) && Probe(k, 5) == 32
  {
    assert Pow2(5) == 32 by { assert Pow2(3) == 8; }
    DivUnique(k, 32, 0);
  }

  // ---- ticks to nanoseconds ----

  function Quot(x: nat, d: nat): nat
    requires d >= 1
  {
    x / d
  }

  /** The 64-bit multiplier. */
  function Multiplier(n: nat, d: nat, s: nat): nat
    requires d >= 1
  {
    Quot(n * Pow2(s), d)
  }

  lemma MultiplierFits(n: nat, d: nat, s: nat)
    requires d >= 1
    ensures Multiplier(n, d, s) <= UINT64_MAX <==> n * Pow2(s) < d * TWO64
    ensures Keeps(n, d, s) ==> Multiplier(n, d, s) <= UINT64_MAX
  {
    var x := n * Pow2(s);
    var q := x / d;
    assert q * d <= x < (q + 1) * d;
    if q <= UINT64_MAX { MulMono(q + 1, TWO64, d); } else { MulMono(TWO64, q, d); }
  }

  lemma LargestFits(n: nat, d: nat, s: nat)
    requires 1 <= d < TWO64 && Largest(n, d, s)
    ensures Quot(Shifted(n, s), d) % TWO64 == Multiplier(n, d, s) <= UINT64_MAX
  {
    MultiplierFits(n, d, s);
    MulMono(d, TWO64, UINT64_MAX);
    NoWrap(n * Pow2(s), TWO128);
  }

  /** The converted time, before it is cut to 64 bits. */
  function Converted(ticks: nat, mult: nat, s: nat): nat { Quot(ticks * mult, Pow2(s)) }

  /** The time read is not above the exact time `ticks * n / d`, and below it by less than `ticks / 2^s + 1`. */
  lemma ConversionError(ticks: nat, n: nat, d: nat, s: nat)
    requires d >= 1
    ensures var ns := Converted(ticks, Multiplier(n, d, s), s);
            ns * d <= ticks * n && ticks * n * Pow2(s) < (ns + 1) * d * Pow2(s) + ticks * d
  {
    var z, mult := Pow2(s), Multiplier(n, d, s);
    var ns := Converted(ticks, mult, s);
    hide Pow2;
    Quotient(n * z, d);
    Quotient(ticks * mult, z);
    ErrorBelow(ticks, n, d, z, mult, ns);
    ErrorAbove(ticks, n, d, z, mult, ns);
  }

  lemma ErrorBelow(ticks: nat, n: nat, d: nat, z: nat, mult: nat, ns: nat)
    requires z >= 1 && mult * d <= n * z && ns * z <= ticks * mult
    ensures ns * d <= ticks * n
  {
    calc {
      (ns * d) * z;
      (ns * z) * d;
    <= { MulMono(ns * z, ticks * mult, d); }
      (ticks * mult) * d;
      ticks * (mult * d);
    <= { MulMono2(ticks, mult * d, n * z); }
      ticks * (n * z);
      (ticks * n) * z;
    }
    if ns * d > ticks * n { StrictMul(ticks * n, ns * d, z); }
  }

  lemma ErrorAbove(ticks: nat, n: nat, d: nat, z: nat, mult: nat, ns: nat)
    requires z >= 1 && d >= 1 && n * z < (mult + 1) * d && ticks * mult < (ns + 1) * z
    ensures ticks * n * z < (ns + 1) * d * z + ticks * d
  {
    Assoc(ticks, n, z);
    MulMono2(ticks, n * z, (mult + 1) * d);
    OneMore(ticks, mult, d);
    StrictMul(ticks * mult, (ns + 1) * z, d);
    Swapped(ns + 1, z, d);
  }

  lemma Swapped(a: nat, b: nat, c: nat)
    ensures (a * b) * c == a * c * b
  {
  }

  lemma OneMore(a: nat, b: nat, c: nat)
    ensures a * ((b + 1) * c) == (a * b) * c + a * c
  {
    Assoc(a, b, c);
    assert (b + 1) * c == b * c + c;
  }

  lemma ConvertedMono(a: nat, b: nat, mult: nat, s: nat)
    requires a <= b
    ensures Converted(a, mult, s) <= Converted(b, mult, s)
  {
    MulMono(a, b, mult);
    DivMono(a * mult, b * mult, Pow2(s));
  }

  lemma DivMono(a: nat, b: nat, z: nat)
    requires a <= b && z >= 1
    ensures a / z <= b / z
  {
    Quotient(a, z);
    Quotient(b, z);
    if b / z < a / z { MulMono(b / z + 1, a / z, z); }
  }

  // ---- reading a counter that wraps ----

  /** The clock of one CPU over a counter that wraps at `period`. */
  class Wallclock {
    var lastTick: nat
    var rollover: nat
    const period: nat
    const freqMult: nat
    const freqShift: nat
    /** The ticks since the start of the period in which the clock was first read, at the last reading. */
    ghost var seen: nat

    /** The whole periods before the last reading; `rollover` holds them in a 64-bit word. */
    ghost predicate Valid()
      reads this
    {
      && lastTick < period && lastTick <= seen && (seen - lastTick) % period == 0
      && rollover == (seen - lastTick) % TWO64
    }

    constructor (period: nat, freq: nat)
      requires 0 < period && 1 <= freq < TWO64
      ensures Valid() && this.period == period && seen == 0
      ensures freq < 1_000_000_000 * 0x1_0000_0000 ==>
                && Largest(1_000_000_000, freq, freqShift)
                && freqMult == Multiplier(1_000_000_000, freq, freqShift)
    {
      hide Pow2, Keeps, Largest, Multiplier, Limit, Shifted, Faithful;
      lastTick, rollover := 0, 0;
      this.period := period;
      var s := FindReciprocalShift(1_000_000_000, freq);
      freqShift := s;
      freqMult := Quot(Shifted(1_000_000_000, s), freq) % TWO64;
      seen := 0;
      new;
      if freq < 1_000_000_000 * 0x1_0000_0000 {
        SmallIsFaithful(1_000_000_000, freq);
        LargestFits(1_000_000_000, freq, freqShift);
      }
    }

    /** Reads the counter, which shows `now` modulo its period: a reading within a period of the last one gives the
        true number of ticks, in a 64-bit word. */
    method GetTicks(currTick: nat, ghost now: nat) returns (ticks: nat)
      requires Valid() && currTick == now % period && seen <= now < seen + period
      modifies this
      ensures Valid() && seen == now && ticks == now % TWO64
    {
      ghost var whole := seen - lastTick;
      CounterStep(whole, lastTick, period, now);
      if currTick < lastTick {
        AddWords(whole, period);
        rollover := (rollover + period) % TWO64;
        whole := whole + period;
      }
      lastTick := currTick;
      seen := now;
      AddWords(whole, currTick);
      ticks := (rollover + currTick) % TWO64;
    }

    /** The time in nanoseconds, which until a word overflows is never less than at an earlier reading. */
    method GetNs(currTick: nat, ghost now: nat) returns (ns: nat)
      requires Valid() && currTick == now % period && seen <= now < seen + period
      modifies this
      ensures Valid() && seen == now && ns == Converted(now % TWO64, freqMult, freqShift) % TWO64
      ensures now < TWO64 && Converted(now, freqMult, freqShift) < TWO64 ==>
                && ns == Converted(now, freqMult, freqShift)
                && ns >= Converted(old(seen), freqMult, freqShift)
    {
      hide Converted;
      ConvertedMono(seen, now, freqMult, freqShift);
      if now < TWO64 { NoWrap(now, TWO64); }
      var ticks := GetTicks(currTick, now);
      ns := Converted(ticks, freqMult, freqShift) % TWO64;
    }
  }

  lemma AddWords(a: nat, b: nat)
    ensures (a % TWO64 + b) % TWO64 == (a + b) % TWO64
  {
    var q := a / TWO64;
    assert a == q * TWO64 + a % TWO64;
    var x := a % TWO64 + b;
    var r := x / TWO64;
    assert x == r * TWO64 + x % TWO64;
    DivUnique(a + b, TWO64, q + r);
  }

  lemma CounterStep(rollover: nat, last: nat, period: nat, now: nat)
    requires period > 0 && last < period && rollover % period == 0 && rollover + last <= now < rollover + last + period
    ensures now % period == (if now - rollover < period then now - rollover else now - rollover - period)
    ensures now % period < last <==> now - rollover >= period
    ensures (rollover + period) % period == 0
  {
    var k := Multiple(rollover, period);
    assert (k + 1) * period == rollover + period && (k + 2) * period == rollover + 2 * period;
    if now - rollover < period { DivUnique(now, period, k); } else { DivUnique(now, period, k + 1); }
    ModMultiple(k + 1, period);
  }
}
