/** Physical memory as a set of power-of-two blocks: halving, joining with the buddy, and the root blocks donated. */
module BuddyBlocks {
  import opened Bits

  const MAX_ORDER: nat := 14

  /** A block, keyed by its first page; `root` and `rootOrder` are the donated block it is part of. */
  datatype Block = Block(order: nat, free: bool, root: nat, rootOrder: nat)

  type Blocks = map<nat, Block>

  predicate InBlock(s: nat, order: nat, p: nat) { s <= p < s + Pow2(order) }

  predicate Disjoint(s: nat, o: nat, t: nat, k: nat) { s + Pow2(o) <= t || t + Pow2(k) <= s }

  // ---- buddies ----

  /** The page number of the buddy: the page number with bit `order` flipped. */
  function Buddy(s: nat, order: nat): int {
    if (s / Pow2(order)) % 2 == 0 then s + Pow2(order) else s - Pow2(order)
  }

  /** `s` is a multiple of the size of a block of order `order`. */
  predicate Aligned(s: nat, order: nat) { s % Pow2(order) == 0 }

  lemma AlignedQuotient(s: nat, order: nat) returns (k: nat)
    requires Aligned(s, order)
    ensures s == k * Pow2(order) && s / Pow2(order) == k
  {
    k := s / Pow2(order);
  }

  lemma AlignedMultiple(k: nat, order: nat)
    ensures Aligned(k * Pow2(order), order) && (k * Pow2(order)) / Pow2(order) == k
  {
    DivUnique(k * Pow2(order), Pow2(order), k);
  }

  lemma BuddyOfLower(j: nat, o: nat)
    ensures var s := j * Pow2(o + 1); Aligned(s, o) && Aligned(s, o + 1) && Buddy(s, o) == s + Pow2(o)
  {
    var z := Pow2(o);
    assert j * (2 * z) == (2 * j) * z;
    AlignedMultiple(2 * j, o);
    AlignedMultiple(j, o + 1);
  }

  lemma BuddyOfUpper(j: nat, o: nat)
    ensures var s := j * Pow2(o + 1) + Pow2(o); Aligned(s, o) && !Aligned(s, o + 1) && Buddy(s, o) == s - Pow2(o)
  {
    var z := Pow2(o);
    assert j * (2 * z) + z == (2 * j + 1) * z;
    AlignedMultiple(2 * j + 1, o);
    DivUnique(j * Pow2(o + 1) + z, Pow2(o + 1), j);
  }

  lemma LowerOrUpper(s: nat, o: nat) returns (j: nat)
    requires Aligned(s, o)
    ensures s == j * Pow2(o + 1) || s == j * Pow2(o + 1) + Pow2(o)
  {
    var k := AlignedQuotient(s, o);
    j := k / 2;
    assert k == 2 * j || k == 2 * j + 1;
    assert (2 * j) * Pow2(o) == j * (2 * Pow2(o));
  }

  /** Two buddies make up an aligned block of the next order. */
  lemma BuddyFacts(s: nat, o: nat)
    requires Aligned(s, o)
    ensures var b := Buddy(s, o);
            && b >= 0 && Aligned(b, o) && Buddy(b, o) == s && b != s
            && (if Aligned(s, o + 1) then b == s + Pow2(o) else b == s - Pow2(o) && Aligned(b, o + 1))
  {
    var j := LowerOrUpper(s, o);
    hide Aligned, Buddy, Pow2;
    BuddyOfLower(j, o);
    BuddyOfUpper(j, o);
  }

  /** The buddy of a block smaller than its root is inside the root. */
  lemma BuddyInside(s: nat, o: nat, root: nat, k: nat)
    requires Aligned(s, o) && Aligned(root, k) && o < k && root <= s && s + Pow2(o) <= root + Pow2(k)
    ensures var b := Buddy(s, o); root <= b && b + Pow2(o) <= root + Pow2(k)
  {
    BuddyFacts(s, o);
    var m := if Aligned(s, o + 1) then s else Buddy(s, o);
    assert Pow2(o + 1) == Pow2(o) + Pow2(o);
    AlignedDown(root, k, o + 1);
    AlignedSum(root, k, o + 1);
    if m < root { MultipleBelow(m, root, Pow2(o + 1)); }
    MultipleBelow(m, root + Pow2(k), Pow2(o + 1));
  }

  lemma AlignedDown(s: nat, k: nat, o: nat)
    requires Aligned(s, k) && o <= k
    ensures Aligned(s, o)
  {
    var j := AlignedQuotient(s, k);
    Pow2Add(o, k - o);
    hide Pow2, Aligned;
    Shuffle(j, Pow2(o), Pow2(k - o));
    AlignedMultiple(j * Pow2(k - o), o);
  }

  lemma Shuffle(j: nat, a: nat, b: nat)
    ensures j * (a * b) == (j * b) * a
  {
  }

  lemma Successor(j: nat, z: nat)
    ensures (j + 1) * z == j * z + z
  {
  }

  lemma AlignedSum(s: nat, k: nat, o: nat)
    requires Aligned(s, k) && o <= k
    ensures Aligned(s + Pow2(k), o)
  {
    hide Pow2, Aligned;
    var j := AlignedQuotient(s, k);
    Successor(j, Pow2(k));
    AlignedMultiple(j + 1, k);
    AlignedDown(s + Pow2(k), k, o);
  }

  // ---- well-formed sets of blocks ----

  predicate BlockOk(b: Blocks, s: nat)
    requires s in b
  {
    var x := b[s];
    && s >= 1 && x.order <= x.rootOrder <= MAX_ORDER && Aligned(s, x.order) && Aligned(x.root, x.rootOrder)
    && x.root <= s && s + Pow2(x.order) <= x.root + Pow2(x.rootOrder)
  }

  predicate SameRoot(x: Block, y: Block) { x.root == y.root && x.rootOrder == y.rootOrder }

  predicate PairOk(b: Blocks, s: nat, t: nat)
    requires s in b && t in b
  {
    && (s != t ==> Disjoint(s, b[s].order, t, b[t].order))
    && (SameRoot(b[s], b[t]) || Disjoint(b[s].root, b[s].rootOrder, b[t].root, b[t].rootOrder))
  }

  /** Page `p` is in some block. */
  ghost predicate Covered(b: Blocks, p: nat) { exists s: nat :: s in b && InBlock(s, b[s].order, p) }

  /** The blocks are aligned, disjoint, inside disjoint root blocks, and make up the donated pages. */
  ghost predicate BlocksOk(b: Blocks, donated: set<nat>) {
    && (forall s: nat | s in b :: BlockOk(b, s))
    && (forall s: nat, t: nat | s in b && t in b :: PairOk(b, s, t))
    && (forall p: nat :: p in donated <==> Covered(b, p))
    && (forall s: nat, p: nat | s in b && InBlock(b[s].root, b[s].rootOrder, p) :: p in donated)
  }

  /** Block `s` and its buddy are both free and whole, and could be joined. */
  predicate Joinable(b: Blocks, s: nat)
    requires s in b
  {
    var x := Buddy(s, b[s].order);
    b[s].order < b[s].rootOrder && x in b && b[x].free && b[x].order == b[s].order
  }

  /** No two free buddies of the same order inside a root block. */
  ghost predicate Coalesced(b: Blocks) { forall s: nat | s in b && b[s].free :: !Joinable(b, s) }

  // ---- halving ----

  function Halve(b: Blocks, s: nat): Blocks
    requires s in b && b[s].order > 0
  {
    var o := b[s].order - 1;
    b[s := b[s].(order := o)][s + Pow2(o) := Block(o, true, b[s].root, b[s].rootOrder)]
  }

  lemma HalfBlocks(b: Blocks, donated: set<nat>, s: nat)
    requires BlocksOk(b, donated) && s in b && b[s].order > 0
    ensures var o := b[s].order - 1;
            && Pow2(o + 1) == 2 * Pow2(o) && s + Pow2(o) !in b && Aligned(s, o) && Aligned(s + Pow2(o), o)
            && Buddy(s, o) == s + Pow2(o) && Buddy(s + Pow2(o), o) == s
  {
    var o := b[s].order - 1;
    assert BlockOk(b, s);
    assert s + Pow2(o) !in b;
    AlignedDown(s, o + 1, o);
    BuddyFacts(s, o);
  }

  /** Where block `t` of the halved set was before. */
  function Whole(b: Blocks, s: nat, t: nat): nat
    requires s in b && b[s].order > 0
  {
    if t == s + Pow2(b[s].order - 1) then s else t
  }

  lemma HalveBlock(b: Blocks, s: nat, t: nat)
    requires s in b && b[s].order > 0 && t in Halve(b, s) && BlockOk(b, Whole(b, s, t))
    requires var o := b[s].order - 1; Pow2(o + 1) == 2 * Pow2(o) && Aligned(s, o) && Aligned(s + Pow2(o), o)
    ensures BlockOk(Halve(b, s), t)
  {
    hide Aligned, Pow2;
  }

  lemma HalvePair(b: Blocks, s: nat, t: nat, u: nat)
    requires s in b && b[s].order > 0 && t in Halve(b, s) && u in Halve(b, s)
    requires Pow2(b[s].order) == 2 * Pow2(b[s].order - 1) && PairOk(b, Whole(b, s, t), Whole(b, s, u))
    ensures PairOk(Halve(b, s), t, u)
  {
    hide Pow2;
  }

  lemma HalfOfWhole(b: Blocks, s: nat)
    requires s in b && b[s].order > 0
    ensures forall t: nat | t in Halve(b, s) :: Whole(b, s, t) in b && SameRoot(Halve(b, s)[t], b[Whole(b, s, t)])
  {
    hide Pow2;
  }

  lemma HalveOk(b: Blocks, donated: set<nat>, s: nat)
    requires BlocksOk(b, donated) && s in b && b[s].order > 0
    ensures BlocksOk(Halve(b, s), donated)
  {
    hide Aligned, Buddy, Pow2, Halve, BlockOk, PairOk, Whole, Covered, InBlock;
    var b' := Halve(b, s);
    HalfBlocks(b, donated, s);
    HalfOfWhole(b, s);
    forall t: nat | t in b'
      ensures BlockOk(b', t)
    {
      HalveBlock(b, s, t);
    }
    forall t: nat, u: nat | t in b' && u in b'
      ensures PairOk(b', t, u)
    {
      HalvePair(b, s, t, u);
    }
    forall p: nat
      ensures p in donated <==> Covered(b', p)
    {
      HalveCovers(b, s, p);
    }
  }

  lemma HalveCovers(b: Blocks, s: nat, p: nat)
    requires s in b && b[s].order > 0 && s + Pow2(b[s].order - 1) !in b && Pow2(b[s].order) == 2 * Pow2(b[s].order - 1)
    ensures Covered(b, p) <==> Covered(Halve(b, s), p)
  {
    var o, b' := b[s].order - 1, Halve(b, s);
    var h := s + Pow2(o);
    if Covered(b, p) {
      var t: nat :| t in b && InBlock(t, b[t].order, p);
      var u := if t == s && p >= h then h else t;
      assert u in b' && InBlock(u, b'[u].order, p);
    }
    if Covered(b', p) {
      var t: nat :| t in b' && InBlock(t, b'[t].order, p);
      var u := if t == h then s else t;
      assert u in b && InBlock(u, b[u].order, p);
    }
  }

  // ---- joining ----

  /** The two buddies become one block of the next order. */
  function Join(b: Blocks, s: nat): Blocks
    requires s in b && Joinable(b, s)
  {
    var x: nat := Buddy(s, b[s].order);
    var low, high := if x < s then x else s, if x < s then s else x;
    (b - {high})[low := b[s].(order := b[s].order + 1)]
  }

  lemma JoinFacts(b: Blocks, donated: set<nat>, s: nat)
    requires BlocksOk(b, donated) && s in b && Joinable(b, s)
    ensures var o, x := b[s].order, Buddy(s, b[s].order);
            && x >= 0 && x != s && SameRoot(b[s], b[x]) && Pow2(o + 1) == 2 * Pow2(o) && Buddy(x, o) == s
            && (x == s + Pow2(o) || s == x + Pow2(o)) && Aligned(if x < s then x else s, o + 1)
            && s >= 1 && x >= 1 && Joinable(b, x) == b[s].free
  {
    var o, x := b[s].order, Buddy(s, b[s].order);
    assert BlockOk(b, s) && BlockOk(b, x);
    BuddyFacts(s, o);
    BuddyInside(s, o, b[s].root, b[s].rootOrder);
    assert PairOk(b, s, x);
  }

  lemma JoinBlock(b: Blocks, s: nat, low: nat, high: nat, t: nat)
    requires s in b && Joinable(b, s) && low in b && high in b && t in Join(b, s) && BlockOk(b, t) && BlockOk(b, high)
    requires var o, x := b[s].order, Buddy(s, b[s].order);
             && low == (if x < s then x else s) && high == (if x < s then s else x) && high == low + Pow2(o)
             && Pow2(o + 1) == 2 * Pow2(o) && Aligned(low, o + 1) && SameRoot(b[s], b[x])
    ensures t in b && BlockOk(Join(b, s), t) && SameRoot(Join(b, s)[t], b[t])
  {
    hide Aligned, Buddy, Pow2;
  }

  lemma JoinPair(b: Blocks, s: nat, low: nat, high: nat, t: nat, u: nat)
    requires s in b && Joinable(b, s) && low in b && high in b && t in Join(b, s) && u in Join(b, s) && t in b && u in b
    requires var o, x := b[s].order, Buddy(s, b[s].order);
             && low == (if x < s then x else s) && high == (if x < s then s else x) && high == low + Pow2(o)
             && Pow2(o + 1) == 2 * Pow2(o) && SameRoot(b[s], b[x])
    requires PairOk(b, t, u) && PairOk(b, t, high) && PairOk(b, high, u) && t != high && u != high
    ensures PairOk(Join(b, s), t, u)
  {
    hide Buddy, Pow2;
  }

  lemma JoinShape(b: Blocks, s: nat, low: nat, high: nat)
    requires s in b && Joinable(b, s)
    requires var x := Buddy(s, b[s].order);
             low == (if x < s then x else s) && high == (if x < s then s else x) && x != s
    ensures var b' := Join(b, s);
            && b'.Keys == b.Keys - {high} && low in b && high in b && b'[low].order == b[s].order + 1
            && forall t: nat | t in b && t != low && t != high :: b'[t] == b[t]
  {
    hide Buddy;
  }

  lemma JoinOk(b: Blocks, donated: set<nat>, s: nat)
    requires BlocksOk(b, donated) && s in b && Joinable(b, s)
    ensures BlocksOk(Join(b, s), donated)
  {
    var o, x := b[s].order, Buddy(s, b[s].order);
    JoinFacts(b, donated, s);
    var low, high := if x < s then x else s, if x < s then s else x;
    var b' := Join(b, s);
    JoinShape(b, s, low, high);
    hide Aligned, Buddy, Pow2, Join, Joinable, BlockOk, PairOk, Covered, InBlock;
    forall t: nat | t in b'
      ensures BlockOk(b', t) && SameRoot(b'[t], b[t])
    {
      JoinBlock(b, s, low, high, t);
    }
    forall t: nat, u: nat | t in b' && u in b'
      ensures PairOk(b', t, u)
    {
      JoinPair(b, s, low, high, t, u);
    }
    forall p: nat
      ensures p in donated <==> Covered(b', p)
    {
      JoinCovers(b, low, high, o, b', p);
    }
  }

  lemma JoinCovers(b: Blocks, low: nat, high: nat, o: nat, b': Blocks, p: nat)
    requires low in b && high in b && high == low + Pow2(o) && b[low].order == b[high].order == o
             && Pow2(o + 1) == 2 * Pow2(o)
    requires b'.Keys == b.Keys - {high} && b'[low].order == o + 1
    requires forall t: nat | t in b && t != low && t != high :: b'[t] == b[t]
    ensures Covered(b, p) <==> Covered(b', p)
  {
    if Covered(b, p) {
      var t: nat :| t in b && InBlock(t, b[t].order, p);
      var u := if t == high then low else t;
      assert u in b' && InBlock(u, b'[u].order, p);
    }
    if Covered(b', p) {
      var t: nat :| t in b' && InBlock(t, b'[t].order, p);
      var u := if t == low && p >= high then high else t;
      assert u in b && InBlock(u, b[u].order, p);
    }
  }
}
