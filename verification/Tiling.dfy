/** The arithmetic of a buddy heap: aligned power-of-two blocks, and what it
    means that such blocks tile the arenas obtained from the system. */
module Tiling {

  const MIN_N := 4
  const MAX_N := 16
  const ARENA := 0x1_0000

  /** Blocksize[n] */
  function Size(n: nat): (s: nat)
    ensures s >= 1
  {
    if n == 0 then 1 else 2 * Size(n - 1)
  }

  lemma Sizes()
    ensures Size(MIN_N) == 16 && Size(8) == 256 && Size(12) == 0x1000 && Size(MAX_N) == ARENA
  {
    assert Size(4) == 16;
    assert Size(8) == 16 * Size(4);
    assert Size(12) == 16 * Size(8);
    assert Size(16) == 16 * Size(12);
  }

  lemma SizePositive(n: nat)
    ensures Size(n) > 0
  {
  }

  lemma SizeDoubles(n: nat)
    ensures Size(n + 1) == 2 * Size(n)
  {
  }

  lemma {:induction false} SizeMonotone(m: nat, n: nat)
    requires m <= n
    ensures Size(m) <= Size(n)
  {
    if m < n { SizeMonotone(m, n - 1); }
  }

  /** The low n bits of p are zero: p is a multiple of Blocksize[n]. */
  predicate Aligned(p: int, n: nat)
    decreases n
  {
    n == 0 || (p % 2 == 0 && Aligned(p / 2, n - 1))
  }

  /** The base of the arena that address x would lie in. */
  function Base(x: int): int {
    x / ARENA * ARENA
  }

  lemma {:induction false} AlignedWeaken(p: int, m: nat, n: nat)
    requires m <= n && Aligned(p, n)
    ensures Aligned(p, m)
    decreases n
  {
    if m > 0 { AlignedWeaken(p / 2, m - 1, n - 1); }
  }

  /** Two aligned blocks that share an address nest. */
  lemma {:induction false} Nesting(p: int, n: nat, q: int, m: nat, x: int)
    requires m <= n && Aligned(p, n) && Aligned(q, m)
    requires p <= x < p + Size(n) && q <= x < q + Size(m)
    ensures p <= q && q + Size(m) <= p + Size(n)
    decreases n
  {
    if m > 0 { Nesting(p / 2, n - 1, q / 2, m - 1, x / 2); }
  }

  /** p ^ Blocksize[n]: bit n of p flipped. */
  function Buddy(p: int, n: nat): int
    decreases n
  {
    if n == 0 then (if p % 2 == 0 then p + 1 else p - 1)
    else 2 * Buddy(p / 2, n - 1) + p % 2
  }

  /** The lower of a block and its buddy. */
  function Parent(p: int, n: nat): int {
    if p < Buddy(p, n) then p else Buddy(p, n)
  }

  lemma {:induction false} BuddyFacts(p: int, n: nat)
    requires Aligned(p, n)
    ensures Aligned(Buddy(p, n), n)
    ensures Buddy(Buddy(p, n), n) == p
    ensures Buddy(p, n) == p + Size(n) || Buddy(p, n) == p - Size(n)
    decreases n
  {
    if n > 0 { BuddyFacts(p / 2, n - 1); }
  }

  lemma {:induction false} BuddyAbove(p: int, n: nat)
    requires Aligned(p, n + 1)
    ensures Buddy(p, n) == p + Size(n)
    decreases n
  {
    if n > 0 { BuddyAbove(p / 2, n - 1); }
  }

  lemma {:induction false} ParentAligned(p: int, n: nat)
    requires Aligned(p, n)
    ensures Aligned(Parent(p, n), n + 1)
    decreases n
  {
    hide Parent, Buddy;
    if n == 0 {
      UnitParent(p);
      DoubledAligned(Parent(p, 0) / 2, 0);
    } else {
      ParentAligned(p / 2, n - 1);
      HalvedParent(p, n);
      DoubledAligned(Parent(p / 2, n - 1), n);
    }
  }

  lemma UnitParent(p: int)
    ensures Parent(p, 0) % 2 == 0
  {
  }

  lemma DoubledAligned(x: int, n: nat)
    requires Aligned(x, n)
    ensures Aligned(2 * x, n + 1)
  {
    assert 2 * x / 2 == x;
  }

  lemma HalvedParent(p: int, n: nat)
    requires n > 0 && p % 2 == 0
    ensures Parent(p, n) == 2 * Parent(p / 2, n - 1)
  {
    var q := Buddy(p / 2, n - 1);
    assert Buddy(p, n) == 2 * q;
  }

  lemma ParentIsLower(p: int, n: nat)
    requires Aligned(p, n)
    ensures Aligned(Parent(p, n), n + 1)
    ensures (Parent(p, n) == p && p + Size(n) == Buddy(p, n))
              || (Parent(p, n) == Buddy(p, n) && Buddy(p, n) + Size(n) == p)
  {
    hide Aligned, Buddy, Size;
    BuddyFacts(p, n);
    ParentAligned(p, n);
    SizePositive(n);
  }

  /** The bases of arena slots are the addresses aligned to level MAX_N. */
  lemma BaseAligned(a: int)
    requires a == Base(a)
    ensures Aligned(a, MAX_N)
  {
    var k := a / ARENA;
    ScaledAligned(k, MAX_N);
    Sizes();
  }

  lemma {:induction false} ScaledAligned(k: int, n: nat)
    ensures Aligned(Scale(k, n), n) && Scale(k, n) == k * Size(n)
  {
    if n > 0 { ScaledAligned(k, n - 1); }
  }

  function Scale(k: int, n: nat): int {
    if n == 0 then k else 2 * Scale(k, n - 1)
  }

  lemma SlotOf(b: int, p: int)
    requires b == Base(b) && b <= p < b + ARENA
    ensures Base(p) == b
  {
  }

  /** Every aligned block up to level MAX_N lies within one arena slot. */
  lemma WithinArena(p: int, n: nat, x: int)
    requires n <= MAX_N && Aligned(p, n)
    requires p <= x < p + Size(n)
    ensures Base(x) <= p && p + Size(n) <= Base(x) + ARENA
    ensures Base(p) == Base(x)
  {
    var b := Base(x);
    assert b <= x < b + ARENA && b == Base(b);
    BaseAligned(b);
    assert Size(MAX_N) == ARENA by { Sizes(); }
    Nesting(b, MAX_N, p, n, x);
    SlotOf(b, p);
  }

  // ----- tilings -----

  /** blocks maps the start of every block to its level. */
  type Blocks = map<int, nat>

  ghost predicate Covers(blocks: Blocks, p: int, x: int) {
    p in blocks && p <= x < p + Size(blocks[p])
  }

  ghost predicate Arenas(arenas: set<int>) {
    forall a :: a in arenas ==> a == Base(a) && ARENA <= a && a + ARENA <= 0x1_0000_0000
  }

  ghost predicate WellSized(blocks: Blocks) {
    forall p :: p in blocks ==> MIN_N <= blocks[p] <= MAX_N && Aligned(p, blocks[p])
  }

  ghost predicate Inside(arenas: set<int>, blocks: Blocks) {
    forall p :: p in blocks ==> Base(p) in arenas
  }

  ghost predicate Apart(blocks: Blocks, p: int, q: int)
    requires p in blocks && q in blocks
  {
    p + Size(blocks[p]) <= q || q + Size(blocks[q]) <= p
  }

  ghost predicate Disjoint(blocks: Blocks) {
    forall p, q :: p in blocks && q in blocks && p != q ==> Apart(blocks, p, q)
  }

  ghost predicate InArena(arenas: set<int>, x: int) {
    Base(x) in arenas
  }

  ghost predicate Covered(arenas: set<int>, blocks: Blocks) {
    forall x :: InArena(arenas, x) ==> exists p :: Covers(blocks, p, x)
  }

  /** The blocks are aligned powers of two and exactly tile the arenas. */
  ghost predicate Tiles(arenas: set<int>, blocks: Blocks) {
    && Arenas(arenas)
    && WellSized(blocks)
    && Inside(arenas, blocks)
    && Disjoint(blocks)
    && Covered(arenas, blocks)
  }

  lemma OneBlockPerAddress(arenas: set<int>, blocks: Blocks, p: int, q: int, x: int)
    requires Tiles(arenas, blocks)
    requires Covers(blocks, p, x) && Covers(blocks, q, x)
    ensures p == q
  {
    assert p == q || Apart(blocks, p, q);
  }

  lemma BlockRange(arenas: set<int>, blocks: Blocks, p: int)
    requires Tiles(arenas, blocks) && p in blocks
    ensures 16 <= Size(blocks[p]) <= ARENA
    ensures ARENA <= Base(p) <= p && p + Size(blocks[p]) <= Base(p) + ARENA <= 0x1_0000_0000
    ensures forall x :: p <= x < p + Size(blocks[p]) ==> Base(x) == Base(p)
  {
    Sizes();
    SizeMonotone(MIN_N, blocks[p]);
    SizeMonotone(blocks[p], MAX_N);
    WithinArena(p, blocks[p], p);
    forall x | p <= x < p + Size(blocks[p]) ensures Base(x) == Base(p) {
      WithinArena(p, blocks[p], x);
    }
  }

  /** What lies at the buddy address of a block below MAX_N is always the start
      of a block, and of one no larger: a larger block holding the buddy would
      hold p as well. */
  lemma BuddyIsABlock(arenas: set<int>, blocks: Blocks, p: int)
    requires Tiles(arenas, blocks) && p in blocks && blocks[p] < MAX_N
    ensures Buddy(p, blocks[p]) in blocks
    ensures Buddy(p, blocks[p]) != p
    ensures blocks[Buddy(p, blocks[p])] <= blocks[p]
  {
    var n := blocks[p];
    var par := Parent(p, n);
    BuddyFacts(p, n);
    ParentIsLower(p, n);
    SizePositive(n);
    SiblingIsABlock(arenas, blocks, p, n, par, Buddy(p, n));
  }

  /** p and b are the two halves of an aligned span of level n + 1, and p is a block. */
  lemma SiblingIsABlock(arenas: set<int>, blocks: Blocks, p: int, n: nat, par: int, b: int)
    requires Tiles(arenas, blocks) && p in blocks && blocks[p] == n < MAX_N
    requires Aligned(par, n + 1) && Aligned(b, n)
    requires (p == par && b == par + Size(n)) || (b == par && p == par + Size(n))
    ensures b in blocks && blocks[b] <= n
  {
    assert InArena(arenas, b) by {
      WithinArena(par, n + 1, p);
      WithinArena(par, n + 1, b);
    }
    var q :| Covers(blocks, q, b);
    var m := blocks[q];
    if m > n {
      // q is aligned to n+1 and shares b with the parent, so it holds p
      assert q <= par && par + Size(n + 1) <= q + Size(m) by { Nesting(q, m, par, n + 1, b); }
      assert Covers(blocks, p, p) && Covers(blocks, q, p);
      OneBlockPerAddress(arenas, blocks, p, q, p);
      assert false;
    }
    Nesting(b, n, q, m, b);
  }

  /** Cutting a block in two halves of the next lower level. */
  ghost function Split(blocks: Blocks, p: int): Blocks
    requires p in blocks && blocks[p] > 0
  {
    blocks[p := blocks[p] - 1][p + Size(blocks[p] - 1) := blocks[p] - 1]
  }

  /** Joining the block lo of level n with its upper neighbour of level n. */
  ghost function Join(blocks: Blocks, lo: int, n: nat): Blocks {
    (blocks - {lo + Size(n)})[lo := n + 1]
  }

  /** Joining two buddies of equal level. */
  ghost function Merge(blocks: Blocks, p: int): Blocks
    requires p in blocks
  {
    Join(blocks, Parent(p, blocks[p]), blocks[p])
  }

  lemma SplitDisjoint(blocks: Blocks, p: int)
    requires Disjoint(blocks) && p in blocks && blocks[p] > 0
    requires p + Size(blocks[p] - 1) !in blocks
    ensures Disjoint(Split(blocks, p))
  {
    var b := p + Size(blocks[p] - 1);
    var r := Split(blocks, p);
    forall u, v | u in r && v in r && u != v ensures Apart(r, u, v) {
      assert u != p && u != b && v != p && v != b ==> Apart(blocks, u, v);
      assert u == p || u == b || Apart(blocks, u, p);
      assert v == p || v == b || Apart(blocks, p, v);
    }
  }

  lemma SplitCovered(arenas: set<int>, blocks: Blocks, p: int)
    requires Covered(arenas, blocks) && p in blocks && blocks[p] > 0
    requires p + Size(blocks[p] - 1) !in blocks
    ensures Covered(arenas, Split(blocks, p))
  {
    var b := p + Size(blocks[p] - 1);
    var r := Split(blocks, p);
    forall x | InArena(arenas, x) ensures exists q :: Covers(r, q, x) {
      var q :| Covers(blocks, q, x);
      assert Covers(r, q, x) || Covers(r, b, x);
    }
  }

  lemma JoinDisjoint(blocks: Blocks, lo: int, n: nat)
    requires Disjoint(blocks) && lo in blocks && lo + Size(n) in blocks
    requires blocks[lo] == n && blocks[lo + Size(n)] == n
    ensures Disjoint(Join(blocks, lo, n))
  {
    hide Size;
    SizeDoubles(n);
    var hi := lo + Size(n);
    var r := Join(blocks, lo, n);
    forall u, v | u in r && v in r && u != v ensures Apart(r, u, v) {
      assert Apart(blocks, u, v);
      assert Apart(blocks, u, hi);
      assert Apart(blocks, hi, v);
    }
  }

  lemma JoinCovered(arenas: set<int>, blocks: Blocks, lo: int, n: nat)
    requires Covered(arenas, blocks) && lo in blocks && lo + Size(n) in blocks
    requires blocks[lo] == n && blocks[lo + Size(n)] == n
    ensures Covered(arenas, Join(blocks, lo, n))
  {
    var r := Join(blocks, lo, n);
    forall x | InArena(arenas, x) ensures exists q :: Covers(r, q, x) {
      var q :| Covers(blocks, q, x);
      assert Covers(r, q, x) || Covers(r, lo, x);
    }
  }

  lemma AddDisjoint(blocks: Blocks, a: int)
    requires Disjoint(blocks) && a !in blocks
    requires forall q :: q in blocks ==> a + Size(MAX_N) <= q || q + Size(blocks[q]) <= a
    ensures Disjoint(blocks[a := MAX_N])
  {
    var r := blocks[a := MAX_N];
    forall u, v | u in r && v in r && u != v ensures Apart(r, u, v) {
      assert u == a || v == a || Apart(blocks, u, v);
    }
  }

  lemma SplitKeepsTiling(arenas: set<int>, blocks: Blocks, p: int)
    requires Tiles(arenas, blocks) && p in blocks && blocks[p] > MIN_N
    ensures Tiles(arenas, Split(blocks, p))
    ensures p + Size(blocks[p] - 1) !in blocks
    ensures p + Size(blocks[p] - 1) == Buddy(p, blocks[p] - 1)
  {
    var n := blocks[p] - 1;
    var b := p + Size(n);
    assert Base(b) == Base(p) by { BlockRange(arenas, blocks, p); }
    assert Aligned(p, n) && Aligned(b, n) && b == Buddy(p, n) by {
      AlignedWeaken(p, n, n + 1);
      BuddyFacts(p, n);
      BuddyAbove(p, n);
    }
    assert b !in blocks by {
      assert Covers(blocks, p, b);
      if b in blocks { OneBlockPerAddress(arenas, blocks, p, b, b); }
    }
    assert Disjoint(Split(blocks, p)) by { SplitDisjoint(blocks, p); }
    assert Covered(arenas, Split(blocks, p)) by { SplitCovered(arenas, blocks, p); }
  }

  lemma JoinKeepsTiling(arenas: set<int>, blocks: Blocks, lo: int, n: nat)
    requires Tiles(arenas, blocks) && n < MAX_N
    requires lo in blocks && lo + Size(n) in blocks
    requires blocks[lo] == n && blocks[lo + Size(n)] == n
    requires Aligned(lo, n + 1)
    ensures Tiles(arenas, Join(blocks, lo, n))
  {
    hide Aligned, Size;
    var r := Join(blocks, lo, n);
    assert WellSized(r);
    assert Inside(arenas, r);
    assert Disjoint(r) by { JoinDisjoint(blocks, lo, n); }
    assert Covered(arenas, r) by { JoinCovered(arenas, blocks, lo, n); }
  }

  lemma JoinCounts(blocks: Blocks, lo: int, n: nat)
    requires lo in blocks && lo + Size(n) in blocks
    ensures |Join(blocks, lo, n)| == |blocks| - 1
  {
    assert Join(blocks, lo, n).Keys == blocks.Keys - {lo + Size(n)};
  }

  lemma MergeKeepsTiling(arenas: set<int>, blocks: Blocks, p: int)
    requires Tiles(arenas, blocks) && p in blocks && blocks[p] < MAX_N
    requires Buddy(p, blocks[p]) in blocks && blocks[Buddy(p, blocks[p])] == blocks[p]
    ensures Tiles(arenas, Merge(blocks, p))
    ensures |Merge(blocks, p)| == |blocks| - 1
  {
    var n := blocks[p];
    var lo := Parent(p, n);
    ParentIsLower(p, n);
    JoinKeepsTiling(arenas, blocks, lo, n);
    JoinCounts(blocks, lo, n);
  }

  lemma AddArenaKeepsTiling(arenas: set<int>, blocks: Blocks, a: int)
    requires Tiles(arenas, blocks)
    requires a == Base(a) && a !in arenas && ARENA <= a && a + ARENA <= 0x1_0000_0000
    ensures a !in blocks
    ensures Tiles(arenas + {a}, blocks[a := MAX_N])
  {
    assert Aligned(a, MAX_N) by { BaseAligned(a); }
    forall q | q in blocks ensures q != a && (a + Size(MAX_N) <= q || q + Size(blocks[q]) <= a) {
      ApartFromArena(arenas, blocks, q, a);
    }
    AddDisjoint(blocks, a);
    AddCovered(arenas, blocks, a);
  }

  lemma ApartFromArena(arenas: set<int>, blocks: Blocks, q: int, a: int)
    requires Tiles(arenas, blocks) && q in blocks
    requires a == Base(a) && a !in arenas
    ensures q != a && (a + Size(MAX_N) <= q || q + Size(blocks[q]) <= a)
  {
    assert Size(MAX_N) == ARENA by { Sizes(); }
    var s := Size(blocks[q]);
    assert Base(q) <= q && q + s <= Base(q) + ARENA by { BlockRange(arenas, blocks, q); }
    assert Base(q) != a;
    assert Base(q) + ARENA <= a || a + ARENA <= Base(q);
  }

  lemma AddCovered(arenas: set<int>, blocks: Blocks, a: int)
    requires Covered(arenas, blocks) && a == Base(a) && a !in blocks
    ensures Covered(arenas + {a}, blocks[a := MAX_N])
  {
    assert Size(MAX_N) == ARENA by { Sizes(); }
    var r := blocks[a := MAX_N];
    forall x | InArena(arenas + {a}, x) ensures exists q :: Covers(r, q, x) {
      if Base(x) == a {
        assert Covers(r, a, x);
      } else {
        assert InArena(arenas, x);
        var q :| Covers(blocks, q, x);
        assert Covers(r, q, x);
      }
    }
  }

  // ----- no two free buddies -----

  ghost predicate FreePair(blocks: Blocks, used: set<int>, p: int) {
    p in blocks && p !in used && blocks[p] < MAX_N
    && Buddy(p, blocks[p]) in blocks && Buddy(p, blocks[p]) !in used
    && blocks[Buddy(p, blocks[p])] == blocks[p]
  }

  ghost predicate NoFreePairs(blocks: Blocks, used: set<int>) {
    forall p :: !FreePair(blocks, used, p)
  }

  lemma {:induction false} NoBlockBelow(arenas: set<int>, blocks: Blocks, n: nat)
    requires Tiles(arenas, blocks) && NoFreePairs(blocks, {})
    requires n <= MAX_N
    ensures forall p :: p in blocks ==> blocks[p] >= n
  {
    if n > 0 {
      NoBlockBelow(arenas, blocks, n - 1);
      forall p | p in blocks ensures blocks[p] >= n {
        if blocks[p] == n - 1 {
          BuddyIsABlock(arenas, blocks, p);
          assert FreePair(blocks, {}, p);
          assert false;
        }
      }
    }
  }

  /** With everything free and no two free buddies, each arena is one block. */
  lemma AllFreeMeansWhole(arenas: set<int>, blocks: Blocks)
    requires Tiles(arenas, blocks) && NoFreePairs(blocks, {})
    ensures blocks == map a | a in arenas :: MAX_N
  {
    Sizes();
    NoBlockBelow(arenas, blocks, MAX_N);
    forall p | p in blocks ensures p in arenas && blocks[p] == MAX_N {
      BlockRange(arenas, blocks, p);
    }
    forall a | a in arenas ensures a in blocks {
      assert InArena(arenas, a);
      var p :| Covers(blocks, p, a);
      BlockRange(arenas, blocks, p);
    }
  }
}
