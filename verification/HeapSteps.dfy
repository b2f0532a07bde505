/** What splitting, merging, taking and giving back blocks does to the heap of
    src/alloc.c as a whole. */
module HeapSteps {
  import opened Memory
  import opened Tiling
  import opened FreeLists

  // ----- growing the heap -----

  ghost function ArenaShape(sh: Shape, a: int): Shape {
    sh.(arenas := sh.arenas + {a}, blocks := sh.blocks[a := MAX_N], used := sh.used + {a})
  }

  lemma ArenaKeepsHeap(m: Mem, r: Mem, heads: seq<int>, sh: Shape, holes: set<int>, a: int)
    requires Heap(m, heads, sh, holes)
    requires a == Base(a) && a !in sh.arenas && ARENA <= a && a + ARENA <= WORD
    requires forall x :: x in m ==> x in r && (Base(x) != a ==> r[x] == m[x])
    requires Mapped(r, a, ARENA)
    ensures Heap(r, heads, ArenaShape(sh, a), holes + {a})
    ensures |ArenaShape(sh, a).blocks| == |sh.blocks| + 1
    ensures a !in sh.blocks
    ensures forall q :: q in sh.blocks ==> SameBytes(m, r, q, Size(sh.blocks[q]))
  {
    hide Load, Size, WellShaped, HeadersTell, AllChained;
    ArenaKeepsShape(sh, a);
    forall q | q in sh.blocks ensures SameBytes(m, r, q, Size(sh.blocks[q])) && SameBytes(m, r, q, HEADER) {
      BlockMapped(m, sh, q);
      OutsideArena(sh, a, q);
    }
    assert ArenasMapped(r, sh.arenas + {a}) by {
      forall x | InArena(sh.arenas + {a}, x) ensures x in r {
        if Base(x) != a { assert InArena(sh.arenas, x); }
      }
    }
    ReshapeKeepsHeap(m, r, heads, sh, ArenaShape(sh, a), holes, holes + {a});
  }

  lemma ArenaKeepsShape(sh: Shape, a: int)
    requires WellShaped(sh)
    requires a == Base(a) && a !in sh.arenas && ARENA <= a && a + ARENA <= WORD
    ensures a !in sh.blocks && WellShaped(ArenaShape(sh, a))
  {
    hide Tiles;
    AddArenaKeepsTiling(sh.arenas, sh.blocks, a);
    ListsStillFree(sh, ArenaShape(sh, a));
  }

  lemma OutsideArena(sh: Shape, a: int, q: int)
    requires WellShaped(sh) && a !in sh.arenas && q in sh.blocks
    ensures forall x :: q <= x < q + Size(sh.blocks[q]) ==> Base(x) != a
  {
    BlockRange(sh.arenas, sh.blocks, q);
  }

  lemma ListsStillFree(sh: Shape, sh': Shape)
    requires ListsHoldFree(sh) && sh'.lists == sh.lists
    requires forall q :: q in sh.blocks && q !in sh.used ==> IsFree(sh', q, sh.blocks[q])
    requires forall q :: q in sh'.blocks && q !in sh'.used ==>
               q in sh.blocks && q !in sh.used && sh.blocks[q] == sh'.blocks[q]
    ensures ListsHoldFree(sh')
  {
    forall n, i | 0 <= n < LEVELS && 0 <= i < |sh'.lists[n]| ensures IsFree(sh', sh'.lists[n][i], n) {
      assert IsFree(sh, sh.lists[n][i], n);
    }
  }

  /** A new shape with the same lists, in a memory where no listed and no closed
      header changed. */
  lemma ReshapeKeepsHeap(m: Mem, r: Mem, heads: seq<int>, sh: Shape, sh': Shape, holes: set<int>, holes': set<int>)
    requires Heap(m, heads, sh, holes)
    requires WellShaped(sh') && sh'.lists == sh.lists && holes' <= sh'.used && ArenasMapped(r, sh'.arenas)
    requires forall q :: q in sh.blocks && q !in sh.used ==> SameBytes(m, r, q, HEADER)
    requires forall q :: q in sh'.blocks && q !in holes' ==>
               && q in sh.blocks && q !in holes && SameBytes(m, r, q, HEADER)
               && sh'.blocks[q] == sh.blocks[q] && (q in sh'.used <==> q in sh.used)
    ensures Heap(r, heads, sh', holes')
  {
    hide Load, Mapped, Tiles;
    forall q | q in sh'.blocks && q !in holes' ensures HeaderSays(r, q, sh'.blocks[q], q in sh'.used) {
      assert HeaderSays(m, q, sh.blocks[q], q in sh.used);
      HeaderFrame(m, r, q);
    }
    forall n | 0 <= n < LEVELS ensures Chained(r, heads[n], sh.lists[n]) {
      assert Chained(m, heads[n], sh.lists[n]);
      forall i | 0 <= i < |sh.lists[n]| ensures SameBytes(m, r, sh.lists[n][i], HEADER) {
        assert IsFree(sh, sh.lists[n][i], n);
      }
      ChainedFrame(m, r, heads[n], sh.lists[n]);
    }
  }

  lemma SameMemory(m: Mem, sh: Shape, q: int)
    requires WellShaped(sh) && ArenasMapped(m, sh.arenas) && q in sh.blocks
    ensures SameBytes(m, m, q, HEADER)
  {
    BlockMapped(m, sh, q);
  }

  // ----- splitting and merging -----

  /** The block p, just taken, cut in two; both halves are still open. */
  ghost function SplitShape(sh: Shape, p: int): Shape
    requires p in sh.blocks && sh.blocks[p] > 0
  {
    sh.(blocks := Split(sh.blocks, p), used := sh.used + {p + Size(sh.blocks[p] - 1)})
  }

  lemma ShapeParts(sh: Shape, p: int)
    requires WellShaped(sh) && p in sh.blocks
    ensures Aligned(p, sh.blocks[p]) && MIN_N <= sh.blocks[p] <= MAX_N
  {
  }

  lemma SplitKeepsShape(sh: Shape, p: int)
    requires WellShaped(sh) && p in sh.used && p in sh.blocks && sh.blocks[p] > MIN_N
    ensures var b := p + Size(sh.blocks[p] - 1);
            b !in sh.blocks && b == Buddy(p, sh.blocks[p] - 1) && p != b
    ensures WellShaped(SplitShape(sh, p))
  {
    hide Tiles, Buddy;
    ShapeParts(sh, p);
    SplitKeepsTiling(sh.arenas, sh.blocks, p);
    ListsStillFree(sh, SplitShape(sh, p));
  }

  lemma SplitKeepsHeap(m: Mem, heads: seq<int>, sh: Shape, holes: set<int>, p: int)
    requires Heap(m, heads, sh, holes) && p in holes && p in sh.blocks && sh.blocks[p] > MIN_N
    ensures var b := p + Size(sh.blocks[p] - 1);
            && b !in sh.blocks && b == Buddy(p, sh.blocks[p] - 1)
            && Heap(m, heads, SplitShape(sh, p), holes + {b})
            && |SplitShape(sh, p).blocks| == |sh.blocks| + 1
  {
    hide Load, Size, WellShaped, HeadersTell, AllChained, ArenasMapped, Buddy;
    assert p in sh.used;
    SplitKeepsShape(sh, p);
    forall q | q in sh.blocks ensures SameBytes(m, m, q, HEADER) { SameMemory(m, sh, q); }
    ReshapeKeepsHeap(m, m, heads, sh, SplitShape(sh, p), holes, holes + {p + Size(sh.blocks[p] - 1)});
  }

  /** Two open buddies of equal level become one open block. */
  ghost function MergeShape(sh: Shape, p: int): Shape
    requires p in sh.blocks
  {
    var n := sh.blocks[p];
    sh.(blocks := Merge(sh.blocks, p), used := sh.used - {p, Buddy(p, n)} + {Parent(p, n)})
  }

  lemma MergeKeepsShape(sh: Shape, p: int)
    requires WellShaped(sh) && p in sh.used && p in sh.blocks && sh.blocks[p] < MAX_N
    requires Buddy(p, sh.blocks[p]) in sh.used && Buddy(p, sh.blocks[p]) in sh.blocks
    requires sh.blocks[Buddy(p, sh.blocks[p])] == sh.blocks[p]
    ensures WellShaped(MergeShape(sh, p))
    ensures |MergeShape(sh, p).blocks| == |sh.blocks| - 1
    ensures var n := sh.blocks[p];
            var lo := Parent(p, n);
            && (lo == p || lo == Buddy(p, n))
            && forall q :: q in Merge(sh.blocks, p) && q != lo ==>
                 q != p && q != Buddy(p, n) && q in sh.blocks && sh.blocks[q] == Merge(sh.blocks, p)[q]
  {
    hide Tiles, Buddy, Size, Parent;
    ShapeParts(sh, p);
    MergeKeepsTiling(sh.arenas, sh.blocks, p);
    ParentIsLower(p, sh.blocks[p]);
    ListsStillFree(sh, MergeShape(sh, p));
  }

  lemma MergeKeepsHeap(m: Mem, heads: seq<int>, sh: Shape, p: int)
    requires p in sh.blocks && sh.blocks[p] < MAX_N
    requires Heap(m, heads, sh, {p, Buddy(p, sh.blocks[p])})
    requires Buddy(p, sh.blocks[p]) in sh.blocks && sh.blocks[Buddy(p, sh.blocks[p])] == sh.blocks[p]
    ensures Parent(p, sh.blocks[p]) in {p, Buddy(p, sh.blocks[p])}
    ensures Heap(m, heads, MergeShape(sh, p), {Parent(p, sh.blocks[p])})
    ensures |MergeShape(sh, p).blocks| == |sh.blocks| - 1
  {
    hide Load, Size, Buddy, Parent, WellShaped, HeadersTell, AllChained, ArenasMapped, Merge;
    var b := Buddy(p, sh.blocks[p]);
    assert p in {p, b} && b in {p, b};
    MergeKeepsShape(sh, p);
    forall q | q in sh.blocks ensures SameBytes(m, m, q, HEADER) { SameMemory(m, sh, q); }
    ReshapeKeepsHeap(m, m, heads, sh, MergeShape(sh, p), {p, b}, {Parent(p, sh.blocks[p])});
  }

  // ----- opening, writing and closing a block -----

  lemma OpenHole(m: Mem, heads: seq<int>, sh: Shape, holes: set<int>, p: int)
    requires Heap(m, heads, sh, holes) && p in sh.used
    ensures Heap(m, heads, sh, holes + {p})
  {
  }

  /** Writing anywhere inside an open block disturbs nothing else. */
  lemma WriteHole(m: Mem, r: Mem, heads: seq<int>, sh: Shape, holes: set<int>, p: int)
    requires Heap(m, heads, sh, holes) && p in holes && p in sh.blocks
    requires OnlyChanged(m, r, p, Size(sh.blocks[p]), p, 0)
    ensures Heap(r, heads, sh, holes)
    ensures forall q :: q in sh.blocks && q != p ==> SameBytes(m, r, q, Size(sh.blocks[q]))
  {
    hide Load, Size, WellShaped, HeadersTell, AllChained;
    forall q | q in sh.blocks && q != p ensures SameBytes(m, r, q, Size(sh.blocks[q])) && SameBytes(m, r, q, HEADER) {
      BlockMapped(m, sh, q);
      HeadersApart(sh, p, q);
    }
    ReshapeKeepsHeap(m, r, heads, sh, sh, holes, holes);
  }

  lemma CloseHole(m: Mem, heads: seq<int>, sh: Shape, holes: set<int>, p: int)
    requires Heap(m, heads, sh, holes) && p in holes
    requires HeaderSays(m, p, sh.blocks[p], true)
    ensures Heap(m, heads, sh, holes - {p})
  {
    hide Load;
  }

  // ----- the blocks in use -----

  /** Every block in use before, except those in `gone`, is still in use, of the
      same size, and holds the same bytes. */
  ghost predicate KeepsLive(m: Mem, sh: Shape, r: Mem, sh': Shape, gone: set<int>) {
    forall q :: q in sh.used && q !in gone ==>
                  && q in sh.blocks && q in sh'.used && q in sh'.blocks && sh'.blocks[q] == sh.blocks[q]
                  && SameBytes(m, r, q, Size(sh.blocks[q]))
  }

  lemma LiveTransitive(m0: Mem, sh0: Shape, m1: Mem, sh1: Shape, m2: Mem, sh2: Shape, gone: set<int>, gone1: set<int>)
    requires KeepsLive(m0, sh0, m1, sh1, gone) && KeepsLive(m1, sh1, m2, sh2, gone1)
    requires gone1 !! (sh0.used - gone)
    ensures KeepsLive(m0, sh0, m2, sh2, gone)
  {
    hide Size;
  }

  lemma LiveAcrossLink(m: Mem, r: Mem, sh: Shape, p: int, h: int, b: int, j: int)
    requires WellShaped(sh) && ArenasMapped(m, sh.arenas) && p in sh.used
    requires j == 0 || (h in sh.blocks && h !in sh.used && h <= b && b + j <= h + HEADER)
    requires OnlyChanged(m, r, p, HEADER, b, j)
    ensures KeepsLive(m, sh, r, LinkShape(sh, p), {p})
  {
    hide Tiles, Size;
    assert sh.blocks[p] < LEVELS by { assert Tiles(sh.arenas, sh.blocks); BlockLevel(sh, p); }
    forall q | q in sh.used && q != p ensures SameBytes(m, r, q, Size(sh.blocks[q])) {
      BlockMapped(m, sh, q);
      BlockMapped(m, sh, p);
      HeadersApart(sh, p, q);
      if j != 0 {
        BlockMapped(m, sh, h);
        HeadersApart(sh, h, q);
      }
    }
  }

  lemma BlockLevel(sh: Shape, p: int)
    requires WellShaped(sh) && p in sh.blocks
    ensures MIN_N <= sh.blocks[p] <= MAX_N < LEVELS
  {
  }

  lemma LiveAcrossUnlink(m: Mem, r: Mem, sh: Shape, g: int, a: int, k: int, h: int, b: int, j: int)
    requires WellShaped(sh) && ArenasMapped(m, sh.arenas)
    requires k == 0 || (g in sh.blocks && g !in sh.used && g <= a && a + k <= g + HEADER)
    requires j == 0 || (h in sh.blocks && h !in sh.used && h <= b && b + j <= h + HEADER)
    requires OnlyChanged(m, r, a, k, b, j)
    ensures forall q :: q in sh.used ==> SameBytes(m, r, q, Size(sh.blocks[q]))
  {
    hide Tiles, Size;
    forall q | q in sh.used ensures SameBytes(m, r, q, Size(sh.blocks[q])) {
      BlockMapped(m, sh, q);
      if k != 0 { BlockMapped(m, sh, g); HeadersApart(sh, g, q); }
      if j != 0 { BlockMapped(m, sh, h); HeadersApart(sh, h, q); }
    }
  }

  // ----- no two free buddies -----

  lemma MorePairsUsed(blocks: Blocks, used: set<int>, used': set<int>)
    requires NoFreePairs(blocks, used) && used <= used'
    ensures NoFreePairs(blocks, used')
  {
    hide Buddy;
    forall p ensures !FreePair(blocks, used', p) { assert !FreePair(blocks, used, p); }
  }

  lemma SplitNoPairs(arenas: set<int>, blocks: Blocks, used: set<int>, p: int)
    requires Tiles(arenas, blocks) && NoFreePairs(blocks, used) && p in used
    requires p in blocks && blocks[p] > MIN_N
    ensures NoFreePairs(Split(blocks, p), used - {p + Size(blocks[p] - 1)})
  {
    hide Tiles, Size, Buddy, NoFreePairs;
    var n := blocks[p] - 1;
    var b := p + Size(n);
    var r := Split(blocks, p);
    SplitKeepsTiling(arenas, blocks, p);
    TileAligned(arenas, r, p);
    BuddyFacts(p, n);
    forall q ensures !FreePair(r, used - {b}, q) {
      PairFree(blocks, used, q);
      if q in r {
        TileAligned(arenas, r, q);
        BuddyFacts(q, r[q]);
      }
    }
    AllPairsFree(r, used - {b});
  }

  lemma TileAligned(arenas: set<int>, blocks: Blocks, p: int)
    requires Tiles(arenas, blocks) && p in blocks
    ensures Aligned(p, blocks[p])
  {
  }

  lemma PairFree(blocks: Blocks, used: set<int>, q: int)
    requires NoFreePairs(blocks, used)
    ensures !FreePair(blocks, used, q)
  {
  }

  lemma AllPairsFree(blocks: Blocks, used: set<int>)
    requires forall q :: !FreePair(blocks, used, q)
    ensures NoFreePairs(blocks, used)
  {
  }

  lemma MergeNoPairs(arenas: set<int>, blocks: Blocks, used: set<int>, p: int)
    requires Tiles(arenas, blocks) && NoFreePairs(blocks, used)
    requires p in blocks && blocks[p] < MAX_N && p in used && Buddy(p, blocks[p]) in used
    ensures NoFreePairs(Merge(blocks, p), used - {p, Buddy(p, blocks[p])} + {Parent(p, blocks[p])})
  {
    hide Tiles, Size, Buddy, NoFreePairs, Parent;
    var n := blocks[p];
    TileAligned(arenas, blocks, p);
    ParentIsLower(p, n);
    var used' := used - {p, Buddy(p, n)} + {Parent(p, n)};
    forall q ensures !FreePair(Merge(blocks, p), used', q) {
      PairFree(blocks, used, q);
    }
    AllPairsFree(Merge(blocks, p), used');
  }

  lemma LinkNoPairs(arenas: set<int>, blocks: Blocks, used: set<int>, p: int)
    requires Tiles(arenas, blocks) && NoFreePairs(blocks, used) && p in blocks && p in used
    requires blocks[p] == MAX_N || Buddy(p, blocks[p]) !in blocks
               || Buddy(p, blocks[p]) in used || blocks[Buddy(p, blocks[p])] != blocks[p]
    ensures NoFreePairs(blocks, used - {p})
  {
    hide Tiles, Size, Buddy, NoFreePairs;
    forall q ensures !FreePair(blocks, used - {p}, q) {
      PairFree(blocks, used, q);
      if q in blocks {
        TileAligned(arenas, blocks, q);
        BuddyFacts(q, blocks[q]);
      }
    }
    AllPairsFree(blocks, used - {p});
  }

  // ----- accounting -----

  /** The bytes on the lists of the levels below k. */
  ghost function FreeBytes(lists: seq<seq<int>>, k: nat): nat
    requires k <= |lists|
  {
    if k == 0 then 0 else FreeBytes(lists, k - 1) + |lists[k - 1]| * Size(k - 1)
  }

  ghost function TotalFree(sh: Shape): nat { FreeBytes(sh.lists, |sh.lists|) }

  lemma {:induction false} FreeBytesUpdate(lists: seq<seq<int>>, n: nat, l: seq<int>, k: nat)
    requires n < |lists| && k <= |lists|
    ensures FreeBytes(lists[n := l], k) == FreeBytes(lists, k) + (if n < k then (|l| - |lists[n]|) * Size(n) else 0)
  {
    if k > 0 {
      FreeBytesUpdate(lists, n, l, k - 1);
      if k - 1 == n {
        assert (|l| - |lists[n]|) * Size(n) == |l| * Size(n) - |lists[n]| * Size(n);
      }
    }
  }

  lemma LinkAccount(sh: Shape, p: int)
    requires p in sh.blocks && sh.blocks[p] < |sh.lists|
    ensures TotalFree(LinkShape(sh, p)) == TotalFree(sh) + Size(sh.blocks[p])
  {
    FreeBytesUpdate(sh.lists, sh.blocks[p], [p] + sh.lists[sh.blocks[p]], |sh.lists|);
  }

  lemma UnlinkAccount(sh: Shape, p: int, i: int)
    requires p in sh.blocks && sh.blocks[p] < |sh.lists| && 0 <= i < |sh.lists[sh.blocks[p]]|
    ensures TotalFree(UnlinkShape(sh, p, i)) == TotalFree(sh) - Size(sh.blocks[p])
  {
    FreeBytesUpdate(sh.lists, sh.blocks[p], Without(sh.lists[sh.blocks[p]], i), |sh.lists|);
  }
}
