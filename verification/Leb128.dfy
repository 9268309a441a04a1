/** LEB128 numbers (section 7.6 of the DWARF 4 standard), read from a bounded buffer into 64-bit words. */
module Leb128 {
  import opened Bits

  type Byte = b: nat | b < 256

  /** A number read, and how many bytes it took. */
  datatype Number = Bad | Good(value: nat, len: nat)

  /** The low seven bits of a byte, and whether more bytes follow. */
  function Low(b: Byte): nat { b % 128 }

  predicate More(b: Byte) { b >= 128 }

  /** What a byte adds to the number. */
  function Worth(b: Byte, shift: nat): nat { Low(b) * Pow2(shift) }

  /** The number whose bytes start at `s[0]`, the first being worth `2^shift`: it must end within `s`, and no byte may
      start at bit 64 or above. Bits above 63 are lost. */
  function Uleb(s: seq<Byte>, shift: nat): (r: Number)
    ensures r.Good? ==> 1 <= r.len <= |s| && r.value < TWO64
    decreases |s|
  {
    if s == [] || shift >= 64 then Bad
    else if !More(s[0]) then Good(Worth(s[0], shift) % TWO64, 1)
    else
      match Uleb(s[1..], shift + 7)
      case Bad => Bad
      case Good(v, n) => Good((Worth(s[0], shift) + v) % TWO64, n + 1)
  }

  /** The bytes of a number, low bits first. */
  function Encode(x: nat): seq<Byte> { if x < 128 then [x] else [x % 128 + 128] + Encode(x / 128) }

  lemma UlebMore(s: seq<Byte>, shift: nat)
    requires s != [] && shift < 64 && More(s[0]) && Uleb(s[1..], shift + 7).Good?
    ensures var t := Uleb(s[1..], shift + 7); Uleb(s, shift) == Good((Worth(s[0], shift) + t.value) % TWO64, t.len + 1)
  {
  }

  lemma EncodeMore(x: nat, rest: seq<Byte>)
    requires x >= 128
    ensures var s := Encode(x) + rest;
            && s != [] && More(s[0]) && Low(s[0]) == x % 128 && s[1..] == Encode(x / 128) + rest
            && |Encode(x)| == |Encode(x / 128)| + 1
  {
    var b: Byte, t := x % 128 + 128, Encode(x / 128);
    assert Encode(x) == [b] + t;
    hide Encode;
    assert ([b] + t) + rest == [b] + (t + rest);
    assert b % 128 == x % 128 by { DivUnique(b, 128, 1); }
  }

  /** There is room for the next seven bits. */
  lemma NextShift(x: nat, shift: nat)
    requires shift < 64 && x >= 128 && x * Pow2(shift) < TWO64
    ensures shift + 7 < 64 && Pow2(shift + 7) == Pow2(shift) * 128 && (x / 128) * Pow2(shift + 7) < TWO64
    ensures (x % 128) * Pow2(shift) + (x / 128) * Pow2(shift + 7) == x * Pow2(shift)
  {
    Pow2At7();
    Pow2Add(shift, 7);
    Pow2At64();
    hide Pow2;
    Regroup(x, Pow2(shift));
    if shift + 7 >= 64 { Pow2Mono(64, shift + 7); }
  }

  /** Reading back a number that fits gives the number, and exactly its bytes, whatever follows them. */
  lemma {:induction false} RoundTrip(x: nat, rest: seq<Byte>, shift: nat)
    requires shift < 64 && x * Pow2(shift) < TWO64
    ensures Uleb(Encode(x) + rest, shift) == Good(x * Pow2(shift), |Encode(x)|)
    decreases x
  {
    var s := Encode(x) + rest;
    if x < 128 {
      NoWrap(x * Pow2(shift), TWO64);
    } else {
      hide Uleb, Pow2, Encode;
      NextShift(x, shift);
      EncodeMore(x, rest);
      RoundTrip(x / 128, rest, shift + 7);
      UlebMore(s, shift);
      NoWrap(x * Pow2(shift), TWO64);
    }
  }

  lemma Regroup(x: nat, z: nat)
    ensures (x % 128) * z + (x / 128) * (z * 128) == x * z
    ensures x >= 128 && x * z < TWO64 ==> z * 128 < TWO64 && (x / 128) * (z * 128) < TWO64
  {
    var a, b := x % 128, x / 128;
    assert x == 128 * b + a;
    assert b * (z * 128) == (128 * b) * z;
    if x >= 128 { MulMono(128, x, z); }
  }

  // ---- reading ----

  /** What has been read so far, put before what is still to come. */
  function Combine(acc: nat, r: Number, k: nat): Number {
    match r
    case Bad => Bad
    case Good(v, n) => Good((acc + v) % TWO64, n + k)
  }

  lemma ModAdd(a: nat, b: nat, c: nat)
    ensures ((a + b) % TWO64 + c) % TWO64 == (a + (b + c) % TWO64) % TWO64
  {
    var q, r := (a + b) / TWO64, (b + c) / TWO64;
    Remainders(a + b + c, q);
    Remainders(a + b + c, r);
    assert (a + b) % TWO64 + c == (a + b + c) - q * TWO64;
    assert a + (b + c) % TWO64 == (a + b + c) - r * TWO64;
  }

  lemma Remainders(x: nat, q: nat)
    ensures x - q * TWO64 >= 0 ==> (x - q * TWO64) % TWO64 == x % TWO64
  {
    if x - q * TWO64 >= 0 {
      var y: nat := x - q * TWO64;
      var k := y / TWO64;
      assert x == (k + q) * TWO64 + y % TWO64;
      DivUnique(x, TWO64, k + q);
    }
  }

  /** One more byte read. */
  lemma CombineStep(s: seq<Byte>, shift: nat, acc: nat, k: nat)
    requires s != [] && shift < 64 && acc < TWO64
    ensures var acc' := (acc + Worth(s[0], shift)) % TWO64;
            Combine(acc, Uleb(s, shift), k) ==
              if More(s[0]) then Combine(acc', Uleb(s[1..], shift + 7), k + 1) else Good(acc', k + 1)
  {
    hide Uleb, Worth, More;
    var low := Worth(s[0], shift);
    UlebLast(s, shift);
    if More(s[0]) {
      var t := Uleb(s[1..], shift + 7);
      if t.Good? {
        UlebMore(s, shift);
        ModAdd(acc, low, t.value);
      }
    } else {
      ModInner(acc, low);
    }
  }

  lemma ModInner(a: nat, b: nat)
    ensures (a + b % TWO64) % TWO64 == (a + b) % TWO64
  {
    var r := b / TWO64;
    Remainders(a + b, r);
    assert a + b % TWO64 == (a + b) - r * TWO64;
  }

  lemma UlebLast(s: seq<Byte>, shift: nat)
    requires s != [] && shift < 64
    ensures !More(s[0]) ==> Uleb(s, shift) == Good(Worth(s[0], shift) % TWO64, 1)
    ensures More(s[0]) && Uleb(s[1..], shift + 7).Bad? ==> Uleb(s, shift) == Bad
  {
  }

  /** Reads an unsigned number at `start`. */
  method ReadUleb(buf: seq<Byte>, start: nat, end: nat) returns (ok: bool, value: nat, shift: nat, p: nat)
    requires start <= end <= |buf|
    ensures match Uleb(buf[start..end], 0)
            case Bad => !ok
            case Good(v, n) => ok && value == v && p == start + n && shift == 7 * n
  {
    hide Uleb, Worth, More, Combine;
    value, shift, p := 0, 0, start;
    ReadsAll(buf[start..end]);
    while true
      invariant start <= p <= end && value < TWO64 && shift == 7 * (p - start)
      invariant Uleb(buf[start..end], 0) == Combine(value, Uleb(buf[p..end], shift), p - start)
      decreases end - p
    {
      ReadStep(buf, p, end, shift, value, p - start);
      if p >= end {
        return false, value, shift, p;
      }
      if shift >= 64 {
        return false, value, shift, p;
      }
      var byte := buf[p];
      p := p + 1;
      value := (value + Worth(byte, shift)) % TWO64;
      shift := shift + 7;
      if !More(byte) {
        return true, value, shift, p;
      }
    }
  }

  /** One round of the reading loop. */
  lemma ReadStep(buf: seq<Byte>, p: nat, end: nat, shift: nat, acc: nat, k: nat)
    requires p <= end <= |buf| && acc < TWO64
    ensures p >= end || shift >= 64 ==> Combine(acc, Uleb(buf[p..end], shift), k) == Bad
    ensures p < end && shift < 64 ==>
              var acc' := (acc + Worth(buf[p], shift)) % TWO64;
              Combine(acc, Uleb(buf[p..end], shift), k) ==
                if More(buf[p]) then Combine(acc', Uleb(buf[p + 1..end], shift + 7), k + 1) else Good(acc', k + 1)
  {
    var s := buf[p..end];
    if p < end && shift < 64 {
      CombineStep(s, shift, acc, k);
      assert s[1..] == buf[p + 1..end];
    }
  }

  lemma ReadsAll(s: seq<Byte>)
    ensures Combine(0, Uleb(s, 0), 0) == Uleb(s, 0)
  {
    if Uleb(s, 0).Good? { NoWrap(Uleb(s, 0).value, TWO64); }
  }
}
