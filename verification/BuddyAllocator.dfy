/** malloc, free and realloc of src/alloc.c as methods of one object, whose
    fields are the static variables of that file. */
module BuddyAllocator {
  import opened Memory
  import opened Tiling
  import opened FreeLists
  import opened HeapSteps
  import opened Allocator

  ghost predicate ArenasBelow(arenas: set<int>, brk: int) {
    forall a :: a in arenas ==> a + ARENA <= brk
  }

  /** The system's break never moves below memory it has granted. */
  predicate CoreFits(brk: int, core: Core) {
    && |core.contents| == ARENA
    && (core.top == -1 || (0 < core.top && brk <= core.top && core.top + 2 * ARENA <= WORD))
  }

  function ByteAt(contents: seq<Byte>, a: int, x: int): Byte
    requires a <= x < a + |contents|
  {
    contents[x - a]
  }

  /** The memory once the system has added the arena at a. */
  function WithArena(m: Mem, a: int, contents: seq<Byte>): (r: Mem)
    requires |contents| == ARENA
    ensures Mapped(r, a, ARENA)
    ensures forall x :: x in m ==> x in r && (x < a || a + ARENA <= x ==> r[x] == m[x])
  {
    m + map x | a <= x < a + ARENA :: ByteAt(contents, a, x)
  }

  lemma RoundUpFacts(top: int, brk: int, arenas: set<int>)
    requires 0 < top && brk <= top && top + 2 * ARENA <= WORD && ArenasBelow(arenas, brk)
    ensures var a := RoundUp(top);
            && a == Base(a) && top <= a && ARENA <= a && a + ARENA <= WORD && a !in arenas
            && (forall x :: x < a || a + ARENA <= x <==> Base(x) != a)
            && ArenasBelow(arenas + {a}, a + ARENA)
  {
  }

  /** No list from level n up to MAX_N has a block. */
  ghost predicate NothingFrom(sh: Shape, n: int) {
    forall k :: n <= k <= MAX_N && 0 <= k < |sh.lists| ==> sh.lists[k] == []
  }

  class BuddyAllocator {
    var mem: Mem
    var freetable: seq<int>
    var brk: int
    var memfail: int
    var allocs: int
    var frees: int
    var invalid: int
    var heapsize: int
    var inuse: int
    var morecores: int
    var splits: int
    var merges: int
    var sizes: seq<int>
    var memdebug: bool
    var memmerge: bool
    ghost var shape: Shape
    ghost var alwaysMerged: bool

    /** The heap between operations, or in the middle of one, when the blocks in
        `holes` are open and `taken` of their bytes are not yet accounted for. */
    ghost predicate Open(holes: set<int>, taken: int)
      reads this
    {
      && Heap(mem, freetable, shape, holes)
      && (alwaysMerged ==> NoFreePairs(shape.blocks, shape.used))
      && ArenasBelow(shape.arenas, brk)
      && |shape.blocks| == morecores + splits - merges
      && |shape.arenas| == morecores
      && heapsize == morecores * ARENA
      && heapsize == inuse + TotalFree(shape) + taken
      && |sizes| == LEVELS
    }

    ghost predicate Valid()
      reads this
    {
      Open({}, 0)
    }

    /** blk was handed out and not yet given back. */
    ghost predicate Live(blk: int)
      reads this
    {
      blk - USEROFFSET in shape.used && blk - USEROFFSET in shape.blocks
    }

    constructor ()
      ensures Valid()
      ensures shape == EMPTY_SHAPE && memmerge && !memdebug && alwaysMerged
    {
      mem := map[];
      freetable := seq(LEVELS, _ => 0);
      brk := 0;
      memfail, allocs, frees, invalid, heapsize, inuse, morecores, splits, merges := 0, 0, 0, 0, 0, 0, 0, 0, 0;
      sizes := seq(LEVELS, _ => 0);
      memdebug := false;
      memmerge := true;
      shape := EMPTY_SHAPE;
      alwaysMerged := true;
      new;
      EmptyHeap();
    }

    static lemma EmptyHeap()
      ensures Heap(map[], seq(LEVELS, _ => 0), EMPTY_SHAPE, {})
      ensures NoFreePairs(map[], {}) && TotalFree(EMPTY_SHAPE) == 0
    {
      EmptyFree(LEVELS);
    }

    static lemma {:induction false} EmptyFree(k: nat)
      requires k <= LEVELS
      ensures FreeBytes(EMPTY_SHAPE.lists, k) == 0
    {
      if k > 0 { EmptyFree(k - 1); }
    }

    method LinkBlock(p: int, n: int, ghost holes: set<int>)
      requires Heap(mem, freetable, shape, holes) && p in holes && p in shape.blocks && shape.blocks[p] == n
      modifies this`mem, this`freetable, this`shape
      ensures n < |old(shape).lists| && shape == LinkShape(old(shape), p)
      ensures Heap(mem, freetable, shape, holes - {p})
      ensures KeepsLive(old(mem), old(shape), mem, shape, {p})
      ensures TotalFree(shape) == TotalFree(old(shape)) + Size(n)
    {
      hide Load, Store, WellShaped, HeadersTell, AllChained, ArenasMapped, Size, LinkShape, KeepsLive, TotalFree;
      assert p in shape.used;
      LinkReady(mem, freetable, shape, holes, p);
      LinkKeepsHeap(mem, freetable, shape, holes, p);
      LinkMemEffect(mem, freetable[n], p, n);
      var head := freetable[n];
      LiveAcrossLink(mem, LinkMem(mem, head, p, n), shape, p, head, head + OFF_PREV, if head == 0 then 0 else 4);
      LinkAccount(shape, p);
      mem := Store(mem, p + OFF_N, n);
      mem := Store(mem, p + OFF_INUSE, 0);
      mem := Store(mem, p + OFF_PREV, 0);
      mem := Store(mem, p + OFF_NEXT, freetable[n]);
      if freetable[n] != 0 {
        mem := Store(mem, freetable[n] + OFF_PREV, p);
      }
      freetable := freetable[n := p];
      shape := LinkShape(shape, p);
    }

    method UnlinkBlock(p: int, n: int, ghost holes: set<int>)
      requires Heap(mem, freetable, shape, holes) && p in shape.blocks && p !in shape.used && shape.blocks[p] == n
      modifies this`mem, this`freetable, this`shape
      ensures Heap(mem, freetable, shape, holes + {p})
      ensures shape.blocks == old(shape).blocks && shape.arenas == old(shape).arenas
      ensures shape.used == old(shape).used + {p}
      ensures KeepsLive(old(mem), old(shape), mem, shape, {})
      ensures TotalFree(shape) == TotalFree(old(shape)) - Size(n)
    {
      hide Load, Store, WellShaped, HeadersTell, AllChained, ArenasMapped, Size, KeepsLive, TotalFree, Chained;
      ghost var i := UnlinkReady(mem, freetable, shape, holes, p);
      ghost var l := shape.lists[n];
      var prev := Load(mem, p + OFF_PREV);
      var next := Load(mem, p + OFF_NEXT);
      assert Linked(mem, l, i);
      UnlinkKeepsHeap(mem, freetable, shape, holes, p, i, prev, next);
      LiveAcrossUnlink(mem, UnlinkMem(mem, prev, next), shape, prev, prev + OFF_NEXT,
          if prev == 0 then 0 else 4, next, next + OFF_PREV, if next == 0 then 0 else 4);
      UsedAreBlocks(shape);
      UnlinkLive(mem, UnlinkMem(mem, prev, next), shape, p, i);
      UnlinkAccount(shape, p, i);
      if prev != 0 {
        mem := Store(mem, prev + OFF_NEXT, next);
        assert Separate(prev, p);
        assert SameBytes(old(mem), mem, p, HEADER);
        HeaderFrame(old(mem), mem, p);
      } else {
        freetable := freetable[n := next];
      }
      if Load(mem, p + OFF_NEXT) != 0 {
        mem := Store(mem, Load(mem, p + OFF_NEXT) + OFF_PREV, Load(mem, p + OFF_PREV));
      }
      shape := UnlinkShape(shape, p, i);
    }

    method GetBlock(n: int, core: Core) returns (p: int)
      requires Valid() && MIN_N <= n <= MAX_N && CoreFits(brk, core)
      modifies this`mem, this`freetable, this`brk, this`memfail, this`heapsize, this`morecores, this`splits, this`shape
      ensures p == 0 <==> NothingFrom(old(shape), n) && !Grows(core)
      ensures p == 0 ==> Valid() && shape == old(shape) && mem == old(mem) && memfail == old(memfail) + 1
      ensures p != 0 ==> p in shape.blocks && shape.blocks[p] == n && Open({p}, Size(n)) && memfail == old(memfail)
      ensures p != 0 ==> p !in old(shape).used && shape.used == old(shape).used + {p}
      ensures p != 0 ==> KeepsLive(old(mem), old(shape), mem, shape, {})
      ensures old(freetable)[n] != 0 ==> p == old(freetable)[n]
      decreases MAX_N - n
    {
      hide Load, Store, WellShaped, HeadersTell, AllChained,
           ArenasMapped, Size, KeepsLive, TotalFree, NoFreePairs, ArenasBelow;
      HeadOfList(mem, freetable, shape, n);
      if freetable[n] != 0 {
        p := freetable[n];
        MorePairs(shape, p);
        UnlinkBlock(p, n, {});
        assert {} + {p} == {p};
      } else if n == MAX_N {
        if core.top == -1 || !core.granted {
          memfail := memfail + 1;
          return 0;
        }
        p := MoreCore(core);
      } else {
        p := GetBlock(n + 1, core);
        if p != 0 {
          SplitBlock(p, n, old(mem), old(shape));
        }
      }
    }

    /** The brk branch of getblock, when the system grants the memory. */
    method MoreCore(core: Core) returns (p: int)
      requires Valid() && CoreFits(brk, core) && Grows(core)
      modifies this`mem, this`brk, this`heapsize, this`morecores, this`shape
      ensures p != 0 && p in shape.blocks && shape.blocks[p] == MAX_N && Open({p}, Size(MAX_N))
      ensures p !in old(shape).used && shape.used == old(shape).used + {p}
      ensures KeepsLive(old(mem), old(shape), mem, shape, {})
    {
      hide Heap, WellShaped, ArenasBelow, Size, TotalFree, NoFreePairs, KeepsLive, RoundUp, WithArena, ArenaShape;
      Sizes();
      var a := RoundUp(core.top);
      brk := a + ARENA;
      GrowStep(mem, freetable, shape, old(brk), core.top, core.contents);
      mem := WithArena(mem, a, core.contents);
      morecores := morecores + 1;
      heapsize := heapsize + ARENA;
      shape := ArenaShape(shape, a);
      p := a;
    }

    /** The rest of getblock after a block of level n + 1 was obtained. */
    method SplitBlock(p: int, n: int, ghost m0: Mem, ghost sh0: Shape)
      requires MIN_N <= n < MAX_N && p in shape.blocks && shape.blocks[p] == n + 1 && Open({p}, Size(n + 1))
      requires p !in sh0.used && shape.used == sh0.used + {p}
      requires KeepsLive(m0, sh0, mem, shape, {})
      modifies this`mem, this`freetable, this`splits, this`shape
      ensures p in shape.blocks && shape.blocks[p] == n && Open({p}, Size(n))
      ensures shape.used == old(shape).used
      ensures KeepsLive(m0, sh0, mem, shape, {})
    {
      hide Heap, WellShaped, ArenasBelow, Size, TotalFree, NoFreePairs, KeepsLive, SplitShape;
      SizeDoubles(n);
      ghost var b := p + Size(n);
      HalfStep(mem, freetable, shape, p, m0, sh0);
      shape := SplitShape(shape, p);
      ghost var m2, sh2 := mem, shape;
      LinkBlock(p + Size(n), n, {p} + {b});
      LiveTransitive(m0, sh0, m2, sh2, mem, shape, {}, {b});
      splits := splits + 1;
    }

    /** malloc */
    method Malloc(nb: int, core: Core) returns (g: Grant)
      requires Valid() && 0 <= nb < WORD && CoreFits(brk, core)
      modifies this
      ensures Valid() && alwaysMerged == old(alwaysMerged) && memmerge == old(memmerge)
      ensures g.Exited? <==> Level(nb) > MAX_N
      ensures g.Denied? <==>
                Level(nb) <= MAX_N && NothingFrom(old(shape), Level(nb)) && (core.top == -1 || !core.granted)
      ensures !g.Area? ==> shape == old(shape) && mem == old(mem)
      ensures g.Area? ==> Live(g.addr) && shape.blocks[g.addr - USEROFFSET] == Level(nb)
      ensures g.Area? ==>
                g.addr - USEROFFSET !in old(shape).used && shape.used == old(shape).used + {g.addr - USEROFFSET}
      ensures g.Area? ==> inuse == old(inuse) + Size(Level(nb))
      ensures g.Area? && old(memdebug) ==> AllAre(mem, g.addr, Size(Level(nb)) - USEROFFSET, 0xdd)
      ensures KeepsLive(old(mem), old(shape), mem, shape, {})
    {
      hide Heap, WellShaped, ArenasBelow, Size, TotalFree, NoFreePairs,
           KeepsLive, Level, NothingFrom, LinkShape, Load, Store;
      LiveReflexive(mem, freetable, shape, {});
      var n := SizeIndex(nb);
      LevelBound(nb);
      if n > MAX_N {
        return Exited;
      }
      var p := GetBlock(n, core);
      if p == 0 { return Denied; }
      ghost var m1, sh1 := mem, shape;
      Occupy(p, n);
      LiveTransitive(old(mem), old(shape), m1, sh1, mem, shape, {}, {p});
      g := Area(p + USEROFFSET);
    }

    /** The rest of malloc after a block was obtained. */
    method Occupy(p: int, n: int)
      requires p in shape.blocks && shape.blocks[p] == n && Open({p}, Size(n))
      modifies this`mem, this`sizes, this`allocs, this`inuse
      ensures Valid() && inuse == old(inuse) + Size(n)
      ensures KeepsLive(old(mem), shape, mem, shape, {p})
      ensures memdebug ==> AllAre(mem, p + USEROFFSET, Size(n) - USEROFFSET, 0xdd)
    {
      hide Heap, WellShaped, ArenasBelow, Size, TotalFree, NoFreePairs, KeepsLive, LinkShape, Load, Store;
      TakeStep(mem, freetable, shape, p, memdebug);
      sizes := sizes[n := sizes[n] + 1];
      if memdebug {
        mem := Fill(mem, p, Size(n), USEDPATTERN);
      }
      mem := Store(mem, p + OFF_N, n);
      mem := Store(mem, p + OFF_INUSE, 1);
      allocs := allocs + 1;
      inuse := inuse + Size(n);
    }

    /** free. The pointer is null or was once returned for what is still a block. */
    method Free(blk: int)
      requires Valid()
      requires blk == 0 || blk - USEROFFSET in shape.blocks
      modifies this
      ensures Valid() && memmerge == old(memmerge) && brk == old(brk)
      ensures blk == 0 ==>
                shape == old(shape) && mem == old(mem) && invalid == old(invalid) && alwaysMerged == old(alwaysMerged)
      ensures blk != 0 && !old(Live(blk)) ==>
                shape == old(shape) && mem == old(mem) && invalid == old(invalid) + 1
                    && alwaysMerged == old(alwaysMerged)
      ensures blk != 0 && old(Live(blk)) ==>
                && shape.used == old(shape).used - {blk - USEROFFSET}
                && shape.arenas == old(shape).arenas
                && inuse == old(inuse) - Size(old(shape).blocks[blk - USEROFFSET])
                && alwaysMerged == (old(alwaysMerged) && memmerge)
      ensures KeepsLive(old(mem), old(shape), mem, shape, {blk - USEROFFSET})
    {
      hide Heap, WellShaped, ArenasBelow, Size, TotalFree, NoFreePairs, KeepsLive, Load, Store, Aligned, Buddy;
      LiveReflexive(mem, freetable, shape, {blk - USEROFFSET});
      if blk == 0 { return; }
      var p := blk - USEROFFSET;
      BlockSays(mem, freetable, shape, {}, p);
      var n := Load(mem, p + OFF_N);
      if n < MIN_N || n > MAX_N || Load(mem, p + OFF_INUSE) == 0 || !Aligned(p, n) {
        invalid := invalid + 1;
        return;
      }
      Release(p, n);
    }

    /** The rest of free after its checks. */
    method Release(p0: int, n0: int)
      requires Valid() && p0 in shape.blocks && p0 in shape.used && shape.blocks[p0] == n0
      modifies this`mem, this`freetable, this`frees, this`inuse, this`merges, this`shape, this`alwaysMerged
      ensures Valid()
      ensures shape.used == old(shape).used - {p0} && shape.arenas == old(shape).arenas
      ensures inuse == old(inuse) - Size(n0) && alwaysMerged == (old(alwaysMerged) && memmerge)
      ensures KeepsLive(old(mem), old(shape), mem, shape, {p0})
    {
      hide Heap, WellShaped, ArenasBelow, Size, TotalFree, NoFreePairs, KeepsLive, LinkShape;
      GiveUp(p0, n0);
      var p, n := MergeUp(p0, n0, old(mem), old(shape));
      ghost var m1, sh1 := mem, shape;
      HeapParts(mem, freetable, shape, {p});
      LastStep(shape, p, alwaysMerged);
      LinkBlock(p, n, {p});
      LinkedParts(sh1, p);
      LiveTransitive(old(mem), old(shape), m1, sh1, mem, shape, {p0}, {p});
      assert {p} - {p} == {};
    }

    method GiveUp(p0: int, n0: int)
      requires Valid() && p0 in shape.blocks && p0 in shape.used && shape.blocks[p0] == n0
      modifies this`mem, this`frees, this`inuse, this`alwaysMerged
      ensures Open({p0}, Size(n0))
      ensures inuse == old(inuse) - Size(n0) && alwaysMerged == (old(alwaysMerged) && memmerge)
      ensures KeepsLive(old(mem), shape, mem, shape, {p0})
    {
      hide Heap, WellShaped, ArenasBelow, Size, TotalFree, NoFreePairs, KeepsLive, Fill;
      GiveStep(mem, freetable, shape, p0, memdebug);
      if memdebug {
        mem := Fill(mem, p0, Size(n0), FREEPATTERN);
      }
      frees := frees + 1;
      inuse := inuse - Size(n0);
      alwaysMerged := alwaysMerged && memmerge;
    }

    /** The loop of free: while the buddy of the open block p is free and of the
        same level, the two become one. */
    method MergeUp(p0: int, n0: int, ghost m0: Mem, ghost sh0: Shape) returns (p: int, n: int)
      requires p0 in shape.blocks && shape.blocks[p0] == n0 && Open({p0}, Size(n0))
      requires shape == sh0 && KeepsLive(m0, sh0, mem, shape, {p0})
      modifies this`mem, this`freetable, this`merges, this`shape
      ensures p in shape.blocks && shape.blocks[p] == n && Open({p}, Size(n))
      ensures shape.arenas == sh0.arenas && shape.used == sh0.used - {p0} + {p} && p !in sh0.used - {p0}
      ensures KeepsLive(m0, sh0, mem, shape, {p0})
      ensures memmerge ==> n == MAX_N || !MayMerge(shape, p)
    {
      hide Heap, WellShaped, ArenasBelow, Size, TotalFree, NoFreePairs,
           KeepsLive, Load, Store, Aligned, Buddy, Tiles, MergeShape, UnlinkShape;
      p, n := p0, n0;
      HeapParts(mem, freetable, shape, {p});
      if memmerge {
        while n < MAX_N
          invariant p in shape.blocks && shape.blocks[p] == n && Open({p}, Size(n))
          invariant shape.arenas == sh0.arenas && shape.used == sh0.used - {p0} + {p} && p !in sh0.used - {p0}
          invariant KeepsLive(m0, sh0, mem, shape, {p0})
          decreases MAX_N - n
        {
          var buddy := Buddy(p, n);
          BuddySays(mem, freetable, shape, p);
          if Load(mem, buddy + OFF_INUSE) != 0 || Load(mem, buddy + OFF_N) != n { return; }
          ghost var m1, sh1 := mem, shape;
          UnlinkBlock(buddy, n, {p});
          JoinStep(m0, sh0, m1, sh1, mem, freetable, shape, p, p0, alwaysMerged);
          shape := MergeShape(shape, p);
          if p > buddy { p := buddy; }
          n := n + 1;
          merges := merges + 1;
        }
      }
    }

    /** realloc */
    method Realloc(area: int, size: int, core: Core) returns (g: Grant)
      requires Valid() && 0 <= size < WORD - (USEROFFSET - 1) && CoreFits(brk, core)
      requires area == 0 || area - USEROFFSET in shape.blocks
      modifies this
      ensures Valid()
      ensures area != 0 && size == 0 ==> g.Denied? && !Live(area)
      ensures !g.Area? && (area == 0 || size != 0 || !old(Live(area))) ==> shape == old(shape) && mem == old(mem)
      ensures g.Area? ==> Live(g.addr) && shape.blocks[g.addr - USEROFFSET] == Level(size)
      ensures g.Area? ==> g.addr - USEROFFSET !in old(shape).used
      ensures g.Area? && area != 0 && old(Live(area)) ==>
                && shape.used == old(shape).used + {g.addr - USEROFFSET} - {area - USEROFFSET}
                && Copied(old(mem), area, mem, g.addr,
                     Least(size, Size(old(shape).blocks[area - USEROFFSET]) - USEROFFSET))
      ensures KeepsLive(old(mem), old(shape), mem, shape, if size == 0
                || (g.Area? && area != 0 && old(Live(area))) then {area - USEROFFSET} else {})
    {
      hide Heap, WellShaped, ArenasBelow, Size, TotalFree, NoFreePairs,
           KeepsLive, Level, NothingFrom, Load, Aligned, Copied, CoreFits;
      if area == 0 {
        g := Malloc(size, core);
        LiveWeaken(old(mem), old(shape), mem, shape, {area - USEROFFSET});
        return;
      }
      if size == 0 {
        Free(area);
        return Denied;
      }
      var p := area - USEROFFSET;
      BlockSays(mem, freetable, shape, {}, p);
      var n := Load(mem, p + OFF_N);
      if n < MIN_N || n > MAX_N || Load(mem, p + OFF_INUSE) == 0 || !Aligned(p, n) {
        invalid := invalid + 1;
        g := Malloc(size, core);
        return;
      }
      g := Malloc(size, core);
      if g.Area? {
        Move(area, g.addr, size, n, old(mem), old(shape));
      }
    }

    /** The rest of realloc after a new area was obtained. */
    method Move(area: int, newp: int, size: int, n: int, ghost m0: Mem, ghost sh0: Shape)
      requires Valid() && 0 < size < WORD - (USEROFFSET - 1)
      requires area - USEROFFSET in sh0.used && area - USEROFFSET in sh0.blocks && sh0.blocks[area - USEROFFSET] == n
      requires newp - USEROFFSET !in sh0.used && shape.used == sh0.used + {newp - USEROFFSET}
      requires Live(newp) && shape.blocks[newp - USEROFFSET] == Level(size) && KeepsLive(m0, sh0, mem, shape, {})
      modifies this
      ensures Valid() && Live(newp) && shape.blocks[newp - USEROFFSET] == Level(size)
      ensures shape.used == sh0.used + {newp - USEROFFSET} - {area - USEROFFSET}
      ensures Copied(m0, area, mem, newp, Least(size, Size(n) - USEROFFSET))
      ensures KeepsLive(m0, sh0, mem, shape, {area - USEROFFSET})
    {
      hide Heap, WellShaped, ArenasBelow, Size, TotalFree, NoFreePairs, KeepsLive, Level, Load, Copied, Copy, Mapped;
      ghost var p, q := area - USEROFFSET, newp - USEROFFSET;
      var osize := Size(n) - USEROFFSET;
      CopyStep(m0, sh0, mem, freetable, shape, p, q, size);
      mem := Copy(mem, newp, area, Least(size, osize));
      ghost var m2, sh2 := mem, shape;
      Free(area);
      LiveTransitive(m0, sh0, m2, sh2, mem, shape, {p}, {p});
      CopiedKept(m0, area, m2, sh2, mem, shape, q, p, Least(size, osize));
    }

    /** What a caller may do with memory it was given. */
    method WriteUserArea(area: int, k: int, b: Byte)
      requires Valid() && Live(area) && 0 <= k < Size(shape.blocks[area - USEROFFSET]) - USEROFFSET
      modifies this`mem
      ensures Valid()
      ensures area + k in old(mem) && mem == old(mem)[area + k := b]
    {
      hide Heap, WellShaped, ArenasBelow, Size, TotalFree, NoFreePairs;
      ghost var p := area - USEROFFSET;
      HeapParts(mem, freetable, shape, {});
      BlockMapped(mem, shape, p);
      UserWrite(mem, mem[area + k := b], freetable, shape, p);
      mem := mem[area + k := b];
    }
  }

  /** Once everything is given back to an allocator that always merged, every
      arena is one block again, every split was undone, and the whole heap is free. */
  lemma AllGivenBack(a: BuddyAllocator)
    requires a.Valid() && a.alwaysMerged && a.shape.used == {}
    ensures a.shape.blocks == map base | base in a.shape.arenas :: MAX_N
    ensures a.splits == a.merges
    ensures a.inuse == 0 && TotalFree(a.shape) == a.heapsize
  {
    hide Tiles, NoFreePairs, HeadersTell, AllChained, TotalFree, Size;
    AllFreeMeansWhole(a.shape.arenas, a.shape.blocks);
    assert a.shape.blocks.Keys == a.shape.arenas;
    WholeArenasFree(a.shape);
  }

  lemma WholeArenasFree(sh: Shape)
    requires ListsHoldFree(sh) && sh.used == {}
    requires sh.blocks == map base | base in sh.arenas :: MAX_N
    ensures TotalFree(sh) == |sh.arenas| * ARENA
  {
    forall n | 0 <= n < LEVELS && n != MAX_N ensures sh.lists[n] == [] {
      if 0 < |sh.lists[n]| { ListedIsFree(sh, n, 0); }
    }
    var l := sh.lists[MAX_N];
    forall x ensures x in l <==> x in sh.arenas {
      if x in l {
        var i :| 0 <= i < |l| && l[i] == x;
        assert IsFree(sh, sh.lists[MAX_N][i], MAX_N);
      }
      if x in sh.arenas { assert x in sh.blocks && x !in sh.used; }
    }
    assert (set x | x in l) == sh.arenas;
    DistinctLength(l);
    OnlyTopFree(sh.lists, LEVELS);
    Sizes();
  }

  lemma ListedIsFree(sh: Shape, n: int, i: int)
    requires ListsHoldFree(sh) && 0 <= n < LEVELS && 0 <= i < |sh.lists[n]|
    ensures IsFree(sh, sh.lists[n][i], n)
  {
  }

  lemma {:induction false} DistinctLength(l: seq<int>)
    requires NoRepeats(l)
    ensures |set x | x in l| == |l|
  {
    if l != [] {
      var rest := l[..|l| - 1];
      var last := l[|l| - 1];
      DistinctLength(rest);
      assert (set x | x in l) == (set x | x in rest) + {last};
    }
  }

  lemma {:induction false} OnlyTopFree(lists: seq<seq<int>>, k: nat)
    requires k <= |lists| && forall n :: 0 <= n < k && n != MAX_N ==> lists[n] == []
    ensures FreeBytes(lists, k) == if k > MAX_N then |lists[MAX_N]| * Size(MAX_N) else 0
  {
    if k > 0 { OnlyTopFree(lists, k - 1); }
  }

  function Least(a: int, b: int): int {
    if a < b then a else b
  }

  // ----- facts about shapes that the methods use without opening them -----

  lemma HeadOfList(m: Mem, heads: seq<int>, sh: Shape, n: int)
    requires Heap(m, heads, sh, {}) && MIN_N <= n <= MAX_N
    ensures |sh.lists| == LEVELS
    ensures heads[n] == 0 <==> sh.lists[n] == []
    ensures heads[n] != 0 ==> heads[n] in sh.blocks && heads[n] !in sh.used && sh.blocks[heads[n]] == n
  {
    hide Load, Tiles;
    var l := sh.lists[n];
    assert Chained(m, heads[n], l);
    if l != [] {
      assert IsFree(sh, l[0], n);
      BlockMapped(m, sh, l[0]);
    }
  }

  lemma HeapParts(m: Mem, heads: seq<int>, sh: Shape, holes: set<int>)
    requires Heap(m, heads, sh, holes)
    ensures WellShaped(sh) && holes <= sh.used && ArenasMapped(m, sh.arenas) && |heads| == LEVELS
  {
  }

  lemma LiveInArena(m: Mem, r: Mem, sh: Shape, a: int)
    requires WellShaped(sh) && a !in sh.blocks
    requires forall q :: q in sh.blocks ==> SameBytes(m, r, q, Size(sh.blocks[q]))
    ensures KeepsLive(m, sh, r, ArenaShape(sh, a), {})
  {
  }

  /** What the brk branch of getblock does to the heap. */
  lemma GrowStep(m: Mem, heads: seq<int>, sh: Shape, brk: int, top: int, contents: seq<Byte>)
    requires Heap(m, heads, sh, {}) && ArenasBelow(sh.arenas, brk)
    requires 0 < top && brk <= top && top + 2 * ARENA <= WORD && |contents| == ARENA
    ensures var a := RoundUp(top);
            var r := WithArena(m, a, contents);
            var sh' := ArenaShape(sh, a);
            && a > 0 && a !in sh.used && a in sh'.blocks && sh'.blocks[a] == MAX_N
            && sh'.used == sh.used + {a}
            && Heap(r, heads, sh', {a}) && ArenasBelow(sh'.arenas, a + ARENA)
            && |sh'.blocks| == |sh.blocks| + 1 && |sh'.arenas| == |sh.arenas| + 1
            && TotalFree(sh') == TotalFree(sh)
            && KeepsLive(m, sh, r, sh', {})
            && (NoFreePairs(sh.blocks, sh.used) ==> NoFreePairs(sh'.blocks, sh'.used))
  {
    hide Heap, WellShaped, ArenasBelow, Size, TotalFree, NoFreePairs, KeepsLive, RoundUp, WithArena, Base;
    HeapParts(m, heads, sh, {});
    RoundUpFacts(top, brk, sh.arenas);
    var a := RoundUp(top);
    var r := WithArena(m, a, contents);
    var sh' := ArenaShape(sh, a);
    UsedAreBlocks(sh);
    ArenaKeepsHeap(m, r, heads, sh, {}, a);
    assert {} + {a} == {a};
    ArenaNoPairs(sh, a);
    SameListsSameFree(sh, sh');
    LiveInArena(m, r, sh, a);
  }

  /** What getblock does to a block of level n + 1 before it puts the upper half
      on its list. */
  lemma HalfStep(m: Mem, heads: seq<int>, sh: Shape, p: int, m0: Mem, sh0: Shape)
    requires p in sh.blocks && sh.blocks[p] > MIN_N && Heap(m, heads, sh, {p})
    requires p !in sh0.used && sh.used == sh0.used + {p} && KeepsLive(m0, sh0, m, sh, {})
    ensures var b := p + Size(sh.blocks[p] - 1);
            var sh' := SplitShape(sh, p);
            && p in sh'.blocks && sh'.blocks[p] == sh.blocks[p] - 1
                 && b in sh'.blocks && sh'.blocks[b] == sh.blocks[p] - 1
            && b != p && b !in sh.used && sh'.used == sh.used + {b} && sh'.arenas == sh.arenas
            && Heap(m, heads, sh', {p} + {b}) && {p} + {b} - {b} == {p}
            && sh'.used - {b} == sh.used
            && |sh'.blocks| == |sh.blocks| + 1 && TotalFree(sh') == TotalFree(sh)
            && KeepsLive(m0, sh0, m, sh', {})
            && (NoFreePairs(sh.blocks, sh.used) ==> NoFreePairs(sh'.blocks, sh.used))
  {
    hide Heap, WellShaped, ArenasBelow, Size, TotalFree, NoFreePairs, KeepsLive, Tiles, Buddy;
    HeapParts(m, heads, sh, {p});
    UsedAreBlocks(sh);
    ShapeTiles(sh);
    if NoFreePairs(sh.blocks, sh.used) { SplitNoPairs(sh.arenas, sh.blocks, sh.used, p); }
    var b := p + Size(sh.blocks[p] - 1);
    var sh' := SplitShape(sh, p);
    SplitKeepsHeap(m, heads, sh, {p}, p);
    assert p != b;
    assert sh.used - {b} == sh.used;
    assert sh'.used - {b} == sh.used;
    SplitLive(m, sh, p);
    SameListsSameFree(sh, sh');
    LiveTransitive(m0, sh0, m, sh, m, sh', {}, {p});
  }

  lemma LiveReflexive(m: Mem, heads: seq<int>, sh: Shape, gone: set<int>)
    requires Heap(m, heads, sh, {})
    ensures KeepsLive(m, sh, m, sh, gone)
  {
    hide Tiles, Size, HeadersTell, AllChained;
    forall q | q in sh.used ensures SameBytes(m, m, q, Size(sh.blocks[q])) {
      BlockMapped(m, sh, q);
    }
  }

  /** The writes of malloc into the block it takes. */
  lemma TakeStep(m: Mem, heads: seq<int>, sh: Shape, p: int, debug: bool)
    requires Heap(m, heads, sh, {p}) && p in sh.blocks
    ensures 0 < p && Mapped(m, p, Size(sh.blocks[p])) && HasHeader(m, p) && MIN_N <= sh.blocks[p] <= MAX_N
    ensures var n := sh.blocks[p];
            var m1 := if debug then Fill(m, p, Size(n), USEDPATTERN) else m;
            && HasHeader(m1, p)
            && Heap(Store(Store(m1, p + OFF_N, n), p + OFF_INUSE, 1), heads, sh, {})
            && KeepsLive(m, sh, Store(Store(m1, p + OFF_N, n), p + OFF_INUSE, 1), sh, {p})
  {
    hide Heap, WellShaped, Load, Store, Size;
    HeapParts(m, heads, sh, {p});
    BlockMapped(m, sh, p);
    UsedAreBlocks(sh);
    BlockLevel(sh, p);
    var n := sh.blocks[p];
    var m1 := if debug then Fill(m, p, Size(n), USEDPATTERN) else m;
    var m2 := Store(m1, p + OFF_N, n);
    var m3 := Store(m2, p + OFF_INUSE, 1);
    assert OnlyChanged(m, m3, p, Size(n), p, 0);
    WriteHole(m, m3, heads, sh, {p}, p);
    StoreFrame(m2, p + OFF_INUSE, 1, p + OFF_N);
    assert HeaderSays(m3, p, n, true);
    CloseHole(m3, heads, sh, {p}, p);
    assert {p} - {p} == {};
  }

  /** A block says whether it is in use, and its level. */
  lemma BlockSays(m: Mem, heads: seq<int>, sh: Shape, holes: set<int>, p: int)
    requires Heap(m, heads, sh, holes) && p in sh.blocks && p !in holes
    ensures HasHeader(m, p) && Load(m, p + OFF_N) == sh.blocks[p]
    ensures Load(m, p + OFF_INUSE) == 0 <==> p !in sh.used
    ensures MIN_N <= sh.blocks[p] <= MAX_N && Aligned(p, sh.blocks[p])
  {
    hide Load, Size, Aligned;
    assert HeaderSays(m, p, sh.blocks[p], p in sh.used);
  }

  /** The writes of free into the block it is given. */
  lemma GiveStep(m: Mem, heads: seq<int>, sh: Shape, p: int, debug: bool)
    requires Heap(m, heads, sh, {}) && p in sh.used && p in sh.blocks
    ensures Mapped(m, p, Size(sh.blocks[p]))
    ensures var m1 := if debug then Fill(m, p, Size(sh.blocks[p]), FREEPATTERN) else m;
            Heap(m1, heads, sh, {p}) && KeepsLive(m, sh, m1, sh, {p})
  {
    hide Heap, WellShaped, Load, Size;
    HeapParts(m, heads, sh, {});
    BlockMapped(m, sh, p);
    UsedAreBlocks(sh);
    OpenHole(m, heads, sh, {}, p);
    assert {} + {p} == {p};
    var m1 := if debug then Fill(m, p, Size(sh.blocks[p]), FREEPATTERN) else m;
    WriteHole(m, m1, heads, sh, {p}, p);
  }

  /** Writing in the user area of a block in use keeps the heap. */
  lemma UserWrite(m: Mem, r: Mem, heads: seq<int>, sh: Shape, p: int)
    requires Heap(m, heads, sh, {}) && p in sh.used && p in sh.blocks
    requires OnlyChanged(m, r, p + USEROFFSET, Size(sh.blocks[p]) - USEROFFSET, p, 0)
    ensures Heap(r, heads, sh, {})
    ensures KeepsLive(m, sh, r, sh, {p})
  {
    hide Heap, WellShaped, Load, Size;
    HeapParts(m, heads, sh, {});
    BlockMapped(m, sh, p);
    UsedAreBlocks(sh);
    OpenHole(m, heads, sh, {}, p);
    assert {} + {p} == {p};
    WriteHole(m, r, heads, sh, {p}, p);
    BlockSays(m, heads, sh, {}, p);
    SameBytesLoad(m, r, p + OFF_N);
    SameBytesLoad(m, r, p + OFF_INUSE);
    InUseWord(m, heads, sh, p);
    CloseHole(r, heads, sh, {p}, p);
    assert {p} - {p} == {};
  }

  lemma InUseWord(m: Mem, heads: seq<int>, sh: Shape, p: int)
    requires Heap(m, heads, sh, {}) && p in sh.used && p in sh.blocks
    ensures HeaderSays(m, p, sh.blocks[p], true)
  {
    hide Load, WellShaped, AllChained;
  }

  /** realloc's copy from the old block p into the new block q. */
  lemma CopyStep(m0: Mem, sh0: Shape, m: Mem, heads: seq<int>, sh: Shape, p: int, q: int, size: int)
    requires Heap(m, heads, sh, {}) && 0 < size < WORD - (USEROFFSET - 1)
    requires p in sh0.used && p in sh0.blocks && q !in sh0.used
    requires q in sh.blocks && sh.used == sh0.used + {q} && sh.blocks[q] == Level(size)
    requires KeepsLive(m0, sh0, m, sh, {})
    ensures p in sh.blocks && sh.blocks[p] == sh0.blocks[p] && p > 0
    ensures var k := Least(size, Size(sh0.blocks[p]) - USEROFFSET);
            && Mapped(m, q + USEROFFSET, k) && Mapped(m, p + USEROFFSET, k)
            && Heap(Copy(m, q + USEROFFSET, p + USEROFFSET, k), heads, sh, {})
            && KeepsLive(m0, sh0, Copy(m, q + USEROFFSET, p + USEROFFSET, k), sh, {p})
            && Copied(m0, p + USEROFFSET, Copy(m, q + USEROFFSET, p + USEROFFSET, k), q + USEROFFSET, k)
            && k <= Size(sh.blocks[q]) - USEROFFSET
  {
    hide Heap, WellShaped, Load, Size, Level;
    HeapParts(m, heads, sh, {});
    BlockMapped(m, sh, p);
    BlockMapped(m, sh, q);
    LevelIsLeast(size, Level(size));
    var k := Least(size, Size(sh0.blocks[p]) - USEROFFSET);
    var r := Copy(m, q + USEROFFSET, p + USEROFFSET, k);
    UserWrite(m, r, heads, sh, q);
    LiveTransitive(m0, sh0, m, sh, r, sh, {}, {q});
    HeadersApart(sh, p, q);
    assert SameBytes(m0, m, p, Size(sh0.blocks[p]));
  }

  lemma CopiedKept(m0: Mem, src: int, m: Mem, sh: Shape, r: Mem, sh': Shape, q: int, p: int, k: int)
    requires Copied(m0, src, m, q + USEROFFSET, k) && KeepsLive(m, sh, r, sh', {p})
    requires q in sh.used && q in sh.blocks && q != p && k <= Size(sh.blocks[q]) - USEROFFSET
    ensures Copied(m0, src, r, q + USEROFFSET, k)
    ensures q in sh'.used && q in sh'.blocks && sh'.blocks[q] == sh.blocks[q]
  {
    hide Size;
    forall x | q + USEROFFSET <= x < q + USEROFFSET + k
      ensures x in r && x - (q + USEROFFSET) + src in m0 && r[x] == m0[x - (q + USEROFFSET) + src]
    {
      assert q <= x < q + Size(sh.blocks[q]);
      assert x in m && m[x] == m0[x - (q + USEROFFSET) + src];
    }
  }

  lemma LiveWeaken(m: Mem, sh: Shape, r: Mem, sh': Shape, gone: set<int>)
    requires KeepsLive(m, sh, r, sh', {})
    ensures KeepsLive(m, sh, r, sh', gone)
  {
    hide Size;
  }

  /** The open block p and its buddy could be merged. */
  ghost predicate MayMerge(sh: Shape, p: int)
    requires p in sh.blocks
  {
    && sh.blocks[p] < MAX_N
    && Buddy(p, sh.blocks[p]) in sh.blocks && Buddy(p, sh.blocks[p]) !in sh.used
    && sh.blocks[Buddy(p, sh.blocks[p])] == sh.blocks[p]
  }

  lemma BuddySays(m: Mem, heads: seq<int>, sh: Shape, p: int)
    requires Heap(m, heads, sh, {p}) && p in sh.blocks && sh.blocks[p] < MAX_N
    ensures var b := Buddy(p, sh.blocks[p]);
            && b in sh.blocks && b != p && HasHeader(m, b)
            && Load(m, b + OFF_N) == sh.blocks[b]
            && (Load(m, b + OFF_INUSE) == 0 <==> b !in sh.used)
            && sh.blocks[p] >= MIN_N
  {
    hide Load, Size, Aligned, Tiles, Buddy, Heap;
    HeapParts(m, heads, sh, {p});
    ShapeTiles(sh);
    BuddyIsABlock(sh.arenas, sh.blocks, p);
    BlockLevel(sh, p);
    BlockSays(m, heads, sh, {p}, Buddy(p, sh.blocks[p]));
  }

  /** One round of the loop of free, once the buddy is off its list. */
  lemma JoinStep(m0: Mem, sh0: Shape, m1: Mem, sh1: Shape, m: Mem, heads: seq<int>, sh: Shape, p: int, p0: int,
      merged: bool)
    requires p in sh1.blocks && sh1.blocks[p] < MAX_N
    requires sh.blocks == sh1.blocks && sh.arenas == sh1.arenas && sh.used == sh1.used + {Buddy(p, sh1.blocks[p])}
    requires Buddy(p, sh1.blocks[p]) in sh1.blocks && Buddy(p, sh1.blocks[p]) !in sh1.used
    requires Buddy(p, sh1.blocks[p]) != p
    requires sh1.blocks[Buddy(p, sh1.blocks[p])] == sh1.blocks[p]
    requires Heap(m, heads, sh, {p} + {Buddy(p, sh1.blocks[p])})
    requires KeepsLive(m0, sh0, m1, sh1, {p0}) && KeepsLive(m1, sh1, m, sh, {})
    requires sh1.used == sh0.used - {p0} + {p} && p !in sh0.used - {p0}
    requires merged ==> NoFreePairs(sh1.blocks, sh1.used)
    ensures var n := sh.blocks[p];
            var b := Buddy(p, n);
            var lo := if p > b then b else p;
            var sh' := MergeShape(sh, p);
            && lo in sh'.blocks && sh'.blocks[lo] == n + 1 && |sh'.blocks| == |sh.blocks| - 1
            && Heap(m, heads, sh', {lo})
            && sh'.arenas == sh.arenas && sh'.used == sh0.used - {p0} + {lo} && lo !in sh0.used - {p0}
            && TotalFree(sh') == TotalFree(sh) && Size(n + 1) == 2 * Size(n)
            && KeepsLive(m0, sh0, m, sh', {p0})
            && (merged ==> NoFreePairs(sh'.blocks, sh'.used))
  {
    hide Heap, WellShaped, Load, Size, Buddy, Tiles, NoFreePairs, KeepsLive, TotalFree, Aligned, Merge;
    var n := sh.blocks[p];
    var b := Buddy(p, n);
    var sh' := MergeShape(sh, p);
    assert {p} + {b} == {p, b};
    HeapParts(m, heads, sh, {p, b});
    MergeKeepsHeap(m, heads, sh, p);
    MergeKeepsShape(sh, p);
    ShapeParts(sh, p);
    ParentIsLower(p, n);
    ParentLevel(sh.blocks, p);
    SizeDoubles(n);
    SizePositive(n);
    LiveTransitive(m0, sh0, m1, sh1, m, sh, {p0}, {});
    MergeLive(m0, sh0, m, sh, p, p0);
    SameListsSameFree(sh, sh');
    if merged {
      MorePairsUsed(sh1.blocks, sh1.used, sh.used);
      ShapeTiles(sh);
      MergeNoPairs(sh.arenas, sh.blocks, sh.used, p);
    }
  }

  lemma LinkedParts(sh: Shape, p: int)
    requires p in sh.blocks && sh.blocks[p] < |sh.lists|
    ensures var r := LinkShape(sh, p);
            r.blocks == sh.blocks && r.arenas == sh.arenas && r.used == sh.used - {p}
  {
  }

  lemma ParentLevel(blocks: Blocks, p: int)
    requires p in blocks
    ensures Parent(p, blocks[p]) in Merge(blocks, p) && Merge(blocks, p)[Parent(p, blocks[p])] == blocks[p] + 1
  {
  }

  lemma MergeLive(m0: Mem, sh0: Shape, m: Mem, sh: Shape, p: int, p0: int)
    requires WellShaped(sh) && p in sh.blocks && sh.blocks[p] < MAX_N
    requires Buddy(p, sh.blocks[p]) in sh.blocks && sh.blocks[Buddy(p, sh.blocks[p])] == sh.blocks[p]
    requires KeepsLive(m0, sh0, m, sh, {p0}) && p !in sh0.used - {p0} && Buddy(p, sh.blocks[p]) !in sh0.used - {p0}
    ensures KeepsLive(m0, sh0, m, MergeShape(sh, p), {p0})
  {
    hide Tiles, Buddy, Size, Aligned, Parent;
    ShapeParts(sh, p);
    ParentIsLower(p, sh.blocks[p]);
  }

  /** Giving the open block p back leaves no two free buddies, if the loop of
      free ran to its end. */
  lemma LastStep(sh: Shape, p: int, merged: bool)
    requires WellShaped(sh) && p in sh.blocks && p in sh.used
    requires merged ==> NoFreePairs(sh.blocks, sh.used) && (sh.blocks[p] == MAX_N || !MayMerge(sh, p))
    ensures merged ==> NoFreePairs(sh.blocks, sh.used - {p})
  {
    hide Tiles, Buddy, NoFreePairs;
    if merged {
      ShapeTiles(sh);
      BlockLevel(sh, p);
      LinkNoPairs(sh.arenas, sh.blocks, sh.used, p);
    }
  }

  lemma UsedAreBlocks(sh: Shape)
    requires WellShaped(sh)
    ensures sh.used <= sh.blocks.Keys
  {
  }

  lemma ShapeTiles(sh: Shape)
    requires WellShaped(sh)
    ensures Tiles(sh.arenas, sh.blocks)
  {
  }

  lemma SameListsSameFree(sh: Shape, sh': Shape)
    requires sh.lists == sh'.lists
    ensures TotalFree(sh) == TotalFree(sh')
  {
  }

  lemma MorePairs(sh: Shape, p: int)
    ensures NoFreePairs(sh.blocks, sh.used) ==> NoFreePairs(sh.blocks, sh.used + {p})
  {
    if NoFreePairs(sh.blocks, sh.used) { MorePairsUsed(sh.blocks, sh.used, sh.used + {p}); }
  }

  lemma ArenaNoPairs(sh: Shape, a: int)
    requires WellShaped(sh) && a !in sh.blocks
    ensures NoFreePairs(sh.blocks, sh.used) ==> NoFreePairs(ArenaShape(sh, a).blocks, ArenaShape(sh, a).used)
  {
    if NoFreePairs(sh.blocks, sh.used) {
      hide Buddy, WellShaped;
      var blocks', used' := sh.blocks[a := MAX_N], sh.used + {a};
      forall p ensures !FreePair(blocks', used', p) {
        assert !FreePair(sh.blocks, sh.used, p);
      }
    }
  }

  lemma UnlinkLive(m: Mem, r: Mem, sh: Shape, p: int, i: int)
    requires WellShaped(sh)
    requires p in sh.blocks && sh.blocks[p] < |sh.lists| && 0 <= i < |sh.lists[sh.blocks[p]]|
    requires forall q :: q in sh.used ==> q in sh.blocks && SameBytes(m, r, q, Size(sh.blocks[q]))
    ensures KeepsLive(m, sh, r, UnlinkShape(sh, p, i), {})
  {
  }

  lemma SplitLive(m: Mem, sh: Shape, p: int)
    requires WellShaped(sh) && ArenasMapped(m, sh.arenas) && p in sh.blocks && sh.blocks[p] > MIN_N
    requires p + Size(sh.blocks[p] - 1) !in sh.blocks
    ensures KeepsLive(m, sh, m, SplitShape(sh, p), {p})
  {
    hide Size, Tiles;
    forall q | q in sh.used && q != p ensures SameBytes(m, m, q, Size(sh.blocks[q])) {
      BlockMapped(m, sh, q);
    }
  }
}
