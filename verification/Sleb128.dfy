/** Signed LEB128 numbers. */
module Sleb128 {
  import opened Bits
  import opened Leb128

  const HALF: nat := 0x8000_0000_0000_0000

  /** A 64-bit word as a signed number. */
  function Signed(x: int): int { if x >= HALF then x - TWO64 else x }

  /** The word read, its sign being the highest of the `shift` bits read, if there are fewer than 64. */
  function SignExtend(v: nat, shift: nat): int
    requires shift > 0
  {
    if shift < 64 && (v / Pow2(shift - 1)) % 2 == 1 then Signed(v + (TWO64 - Pow2(shift))) else Signed(v)
  }

  /** Reads a signed number at `start`. */
  method ReadSleb(buf: seq<Byte>, start: nat, end: nat) returns (ok: bool, value: int, p: nat)
    requires start <= end <= |buf|
    ensures match Uleb(buf[start..end], 0)
            case Bad => !ok
            case Good(v, n) => ok && value == SignExtend(v, 7 * n) && p == start + n
  {
    hide SignExtend, Uleb;
    var v, shift;
    ok, v, shift, p := ReadUleb(buf, start, end);
    if !ok {
      return false, 0, p;
    }
    value := SignExtend(v, shift);
  }

  /** The bytes of a signed number, low bits first; the last byte holds the sign in its bit 6. */
  function EncodeSigned(x: int): (s: seq<Byte>)
    ensures |s| >= 1
    decreases if x < 0 then -x else x
  {
    if -64 <= x < 64 then [x % 128] else [x % 128 + 128] + EncodeSigned(x / 128)
  }

  /** `x` modulo `m`, between 0 and `m`. */
  function Mod(x: int, m: nat): nat
    requires m > 0
  {
    x % m
  }

  lemma ModOf(x: int, m: nat, k: int)
    requires m > 0 && 0 <= x - k * m < m
    ensures Mod(x, m) == x - k * m
  {
    var q := x / m;
    assert x == q * m + x % m;
    if q < k { IntMulMono(q + 1, k, m); }
    if k < q { IntMulMono(k + 1, q, m); }
  }

  lemma IntMulMono(a: int, b: int, m: nat)
    requires a <= b
    ensures a * m <= b * m
  {
  }

  /** Seven bits at a time. */
  lemma ModSplit(x: int, m: nat)
    requires m > 0
    ensures Mod(x, m * 128) == x % 128 + 128 * Mod(x / 128, m)
  {
    var a, b := x % 128, x / 128;
    var q, r := b / m, b % m;
    assert b == q * m + r;
    assert x == (q * m + r) * 128 + a;
    assert (q * m) * 128 == q * (m * 128);
    ModOf(x, m * 128, q);
  }

  /** `x` fits in so many bits with its sign. */
  predicate FitsSigned(x: int, bits: nat)
    requires bits > 0
  {
    -(Pow2(bits - 1) as int) <= x < Pow2(bits - 1)
  }

  /** The number of bytes is just enough for the number with its sign. */
  lemma {:induction false} EncodedSize(x: int)
    ensures var n := |EncodeSigned(x)|; FitsSigned(x, 7 * n) && (n > 1 ==> !FitsSigned(x, 7 * (n - 1)))
    decreases if x < 0 then -x else x
  {
    if -64 <= x < 64 {
      assert Pow2(6) == 64 by { assert Pow2(3) == 8; Pow2Add(3, 3); }
    } else {
      EncodedSize(x / 128);
      SizeStep(x, |EncodeSigned(x / 128)|);
    }
  }

  lemma SizeStep(x: int, n: nat)
    requires n >= 1 && !(-64 <= x < 64) && FitsSigned(x / 128, 7 * n) && (n > 1 ==> !FitsSigned(x / 128, 7 * (n - 1)))
    ensures FitsSigned(x, 7 * (n + 1)) && !FitsSigned(x, 7 * n)
  {
    Pow2At7();
    Pow2Add(7 * n - 1, 7);
    if n > 1 { Pow2Add(7 * (n - 1) - 1, 7); } else { assert Pow2(6) == 64 by { assert Pow2(3) == 8; Pow2Add(3, 3); } }
    hide Pow2;
  }

  lemma FitsMono(x: int, a: nat, b: nat)
    requires 0 < a <= b && FitsSigned(x, a)
    ensures FitsSigned(x, b)
  {
    Pow2Mono(a - 1, b - 1);
  }

  /** A 64-bit number takes at most ten bytes. */
  lemma AtMostTen(x: int)
    requires FitsSigned(x, 64)
    ensures |EncodeSigned(x)| <= 10
  {
    EncodedSize(x);
    var n := |EncodeSigned(x)|;
    if n > 10 { FitsMono(x, 64, 7 * (n - 1)); }
  }

  /** The low `n` groups of seven bits of `x`, from bit `shift` of a word on. */
  function WordOf(x: int, n: nat, shift: nat): nat { (Mod(x, Pow2(7 * n)) * Pow2(shift)) % TWO64 }

  /** The word that the reader puts together. */
  lemma {:induction false} SignedWord(x: int, rest: seq<Byte>, shift: nat)
    requires shift + 7 * (|EncodeSigned(x)| - 1) < 64
    ensures var n := |EncodeSigned(x)|; Uleb(EncodeSigned(x) + rest, shift) == Good(WordOf(x, n, shift), n)
    decreases if x < 0 then -x else x
  {
    hide EncodeSigned, Uleb, Worth, Pow2, WordOf, More, Low;
    if -64 <= x < 64 {
      LastByte(x, rest, shift);
    } else {
      var s := EncodeSigned(x) + rest;
      EncodedMore(x, rest);
      SignedWord(x / 128, rest, shift + 7);
      UlebMore(s, shift);
      WordStep(s[0], x, |EncodeSigned(x)| - 1, shift);
    }
  }

  lemma LastByte(x: int, rest: seq<Byte>, shift: nat)
    requires -64 <= x < 64 && shift < 64
    ensures |EncodeSigned(x)| == 1 && Uleb(EncodeSigned(x) + rest, shift) == Good(WordOf(x, 1, shift), 1)
  {
    var s := EncodeSigned(x) + rest;
    assert s == [x % 128] + rest;
    hide Uleb, Pow2, EncodeSigned;
    Pow2At7();
    UlebLast(s, shift);
  }

  lemma EncodedMore(x: int, rest: seq<Byte>)
    requires !(-64 <= x < 64)
    ensures var s := EncodeSigned(x) + rest;
            && s != [] && More(s[0]) && Low(s[0]) == x % 128 && s[1..] == EncodeSigned(x / 128) + rest
            && |EncodeSigned(x)| == |EncodeSigned(x / 128)| + 1
  {
    var b: Byte, t := x % 128 + 128, EncodeSigned(x / 128);
    assert EncodeSigned(x) == [b] + t;
    hide EncodeSigned;
    assert ([b] + t) + rest == [b] + (t + rest);
    DivUnique(b, 128, 1);
  }

  lemma WordStep(b: Byte, x: int, n: nat, shift: nat)
    requires Low(b) == x % 128
    ensures (Worth(b, shift) + WordOf(x / 128, n, shift + 7)) % TWO64 == WordOf(x, n + 1, shift)
  {
    hide Pow2, Mod;
    Pow2At7();
    Pow2Add(7 * n, 7);
    Pow2Add(shift, 7);
    ModSplit(x, Pow2(7 * n));
    WordArith(x % 128, Mod(x / 128, Pow2(7 * n)), Pow2(shift), Pow2(shift + 7));
    assert 7 * (n + 1) == 7 * n + 7;
    assert Worth(b, shift) == (x % 128) * Pow2(shift);
  }

  lemma WordArith(a: nat, m: nat, z: nat, z7: nat)
    requires z7 == z * 128
    ensures (a * z + (m * z7) % TWO64) % TWO64 == ((a + 128 * m) * z) % TWO64
  {
    Distribute(a, m, z);
    ModInner(a * z, m * z7);
  }

  lemma Distribute(a: nat, m: nat, z: nat)
    ensures a * z + m * (z * 128) == (a + 128 * m) * z
  {
  }

  /** Reading back a signed 64-bit number gives the number, and exactly its bytes, whatever follows them. */
  lemma SignedRoundTrip(x: int, rest: seq<Byte>)
    requires FitsSigned(x, 64)
    ensures var r := Uleb(EncodeSigned(x) + rest, 0);
            r.Good? && r.len == |EncodeSigned(x)| && SignExtend(r.value, 7 * r.len) == x
  {
    hide Uleb, EncodeSigned, WordOf, SignExtend, FitsSigned;
    var n := |EncodeSigned(x)|;
    AtMostTen(x);
    SignedWord(x, rest, 0);
    EncodedSize(x);
    WordAtZero(x, n);
    if n <= 9 { ShortWord(x, 7 * n); } else { LongWord(x); }
  }

  lemma WordAtZero(x: int, n: nat)
    ensures WordOf(x, n, 0) == Mod(x, Pow2(7 * n)) % TWO64
  {
    assert Pow2(0) == 1;
  }

  lemma ShortWord(x: int, bits: nat)
    requires 0 < bits < 64 && FitsSigned(x, bits)
    ensures SignExtend(Mod(x, Pow2(bits)) % TWO64, bits) == x
  {
    var h := Pow2(bits - 1);
    assert Pow2(bits) == 2 * h;
    Pow2Mono(bits, 63);
    assert 2 * Pow2(63) == TWO64 by { Pow2At64(); }
    hide Pow2;
    if x < 0 { ModOf(x, 2 * h, -1); } else { ModOf(x, 2 * h, 0); }
    var v := Mod(x, 2 * h);
    NoWrap(v, TWO64);
    DivUnique(v, h, if x < 0 then 1 else 0);
  }

  lemma LongWord(x: int)
    requires FitsSigned(x, 64)
    ensures SignExtend(Mod(x, Pow2(70)) % TWO64, 70) == x
  {
    Pow2Add(64, 6);
    Pow2At64();
    assert Pow2(6) == 64 by { assert Pow2(3) == 8; Pow2Add(3, 3); }
    assert 2 * Pow2(63) == TWO64;
    hide Pow2;
    if x < 0 {
      ModOf(x, TWO64 * 64, -1);
      DivUnique(x + TWO64 * 64, TWO64, 63);
    } else {
      ModOf(x, TWO64 * 64, 0);
      NoWrap(x, TWO64);
    }
  }
}
