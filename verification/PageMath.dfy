/** Sizes and indices of a radix tree of page tables, in units of pages. */
module PageMath {
  import opened Bits

  /** Entries per table. */
  const ENTRIES: nat := 512

  /** Pages covered by one entry of a level-`l` table. */
  function Size(l: nat): (s: nat)
    ensures s >= 1
  {
    if l <= 1 then 1 else ENTRIES * Size(l - 1)
  }

  /** The entry of a level-`l` table that covers page `v`. */
  function Index(v: nat, l: nat): (i: nat)
    ensures i < ENTRIES
  {
    (v / Size(l)) % ENTRIES
  }

  /** The first page of entry `i` of a level-`l` table starting at page `base`. */
  function SlotBase(base: nat, i: nat, l: nat): nat { base + i * Size(l) }

  /** Page `x` lies in entry `i` of a level-`l` table starting at page `base`. */
  predicate InSlot(x: nat, base: nat, i: nat, l: nat) { base + i * Size(l) <= x < base + (i + 1) * Size(l) }

  predicate Covers(base: nat, l: nat, x: nat) { base <= x < base + ENTRIES * Size(l) }

  /** `base` may be the first page of a level-`l` table. */
  predicate Aligned(base: nat, l: nat) { base % (ENTRIES * Size(l)) == 0 }

  lemma AlignedMultiple(base: nat, l: nat) returns (k: nat)
    requires Aligned(base, l)
    ensures base == k * ENTRIES * Size(l) && base == (k * ENTRIES) * Size(l)
  {
    var s := Size(l);
    k := base / (ENTRIES * s);
    assert base == k * (ENTRIES * s);
    Assoc(k, ENTRIES, s);
  }

  lemma QuotientInSlot(x: nat, base: nat, i: nat, l: nat) returns (k: nat)
    requires Aligned(base, l) && InSlot(x, base, i, l)
    ensures x / Size(l) == k * ENTRIES + i && x % Size(l) == x - (base + i * Size(l))
  {
    var s := Size(l);
    k := AlignedMultiple(base, l);
    var q := k * ENTRIES + i;
    assert q * s == (k * ENTRIES) * s + i * s;
    assert (q + 1) * s == (k * ENTRIES) * s + (i + 1) * s;
    DivUnique(x, s, q);
  }

  /** The slot of an aligned table that holds `x` is the one `Index` names. */
  lemma IndexOfSlot(x: nat, base: nat, i: nat, l: nat)
    requires Aligned(base, l) && i < ENTRIES && InSlot(x, base, i, l)
    ensures Index(x, l) == i && Covers(base, l, x)
  {
    var k := QuotientInSlot(x, base, i, l);
    ModPlus(k, i);
    MulMono(i + 1, ENTRIES, Size(l));
  }

  lemma ModPlus(k: nat, i: nat)
    requires i < ENTRIES
    ensures (k * ENTRIES + i) % ENTRIES == i
  {
  }

  lemma SlotOfIndex(x: nat, base: nat, l: nat)
    requires Aligned(base, l) && Covers(base, l, x)
    ensures InSlot(x, base, Index(x, l), l)
  {
    var s := Size(l);
    var i := (x - base) / s;
    Quotient(x - base, s);
    if i >= ENTRIES {
      MulMono(ENTRIES, i, s);
      assert false;
    }
    assert InSlot(x, base, i, l);
    IndexOfSlot(x, base, i, l);
  }

  /** An entry of a level-`l` table is exactly a level-`l - 1` table. */
  lemma ChildAligned(base: nat, i: nat, l: nat)
    requires l > 1 && Aligned(base, l) && i < ENTRIES
    ensures Aligned(SlotBase(base, i, l), l - 1)
    ensures forall x: nat :: InSlot(x, base, i, l) <==> Covers(SlotBase(base, i, l), l - 1, x)
  {
    var k := AlignedMultiple(base, l);
    var s := Size(l);
    assert s == ENTRIES * Size(l - 1);
    assert base + i * s == (k * ENTRIES + i) * s;
    ModMultiple(k * ENTRIES + i, s);
    assert (i + 1) * s == i * s + s;
  }

}
