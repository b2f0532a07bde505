/** The headers and doubly linked free lists that src/alloc.c keeps inside the
    blocks, against the abstract shape of the heap. */
module FreeLists {
  import opened Memory
  import opened Tiling

  const LEVELS := 33

  /** What the heap is, apart from its bytes: the arenas, the level of every
      block, the blocks handed out, and the free blocks of each level in list order. */
  datatype Shape = Shape(arenas: set<int>, blocks: Blocks, used: set<int>, lists: seq<seq<int>>)

  const EMPTY_SHAPE := Shape({}, map[], {}, seq(LEVELS, _ => []))

  // offsets in struct block
  const OFF_N := 0
  const OFF_INUSE := 4
  const OFF_PREV := 8
  const OFF_NEXT := 12
  const HEADER := 16

  ghost predicate NoRepeats(l: seq<int>) {
    forall i, j :: 0 <= i < j < |l| ==> l[i] != l[j]
  }

  ghost predicate IsFree(sh: Shape, p: int, n: nat) {
    p in sh.blocks && p !in sh.used && sh.blocks[p] == n
  }

  /** lists[n] holds exactly the free blocks of level n, each once. */
  ghost predicate ListsHoldFree(sh: Shape) {
    && |sh.lists| == LEVELS
    && (forall n, i :: 0 <= n < LEVELS && 0 <= i < |sh.lists[n]| ==> IsFree(sh, sh.lists[n][i], n))
    && (forall p :: p in sh.blocks && p !in sh.used ==> sh.blocks[p] < LEVELS && p in sh.lists[sh.blocks[p]])
    && (forall n :: 0 <= n < LEVELS ==> NoRepeats(sh.lists[n]))
  }

  ghost predicate WellShaped(sh: Shape) {
    && Tiles(sh.arenas, sh.blocks)
    && sh.used <= sh.blocks.Keys
    && ListsHoldFree(sh)
  }

  ghost predicate ArenasMapped(m: Mem, arenas: set<int>) {
    forall x :: InArena(arenas, x) ==> x in m
  }

  ghost predicate HasHeader(m: Mem, p: int) {
    Mapped(m, p, HEADER)
  }

  ghost predicate Linked(m: Mem, l: seq<int>, i: int)
    requires 0 <= i < |l|
  {
    && HasHeader(m, l[i])
    && Load(m, l[i] + OFF_PREV) == (if i == 0 then 0 else l[i - 1])
    && Load(m, l[i] + OFF_NEXT) == (if i + 1 == |l| then 0 else l[i + 1])
  }

  /** head and the prev and next words form the null-terminated doubly linked list l. */
  ghost predicate Chained(m: Mem, head: int, l: seq<int>) {
    && head == (if l == [] then 0 else l[0])
    && forall i :: 0 <= i < |l| ==> Linked(m, l, i)
  }

  ghost predicate HeaderSays(m: Mem, p: int, n: int, inuse: bool) {
    && HasHeader(m, p)
    && Load(m, p + OFF_N) == n
    && Load(m, p + OFF_INUSE) == (if inuse then 1 else 0)
  }

  /** Every block says its level and whether it is in use. The blocks in
      `holes` are being taken or given back, and their headers are not yet written. */
  ghost predicate HeadersTell(m: Mem, sh: Shape, holes: set<int>) {
    forall p :: p in sh.blocks && p !in holes ==> HeaderSays(m, p, sh.blocks[p], p in sh.used)
  }

  ghost predicate AllChained(m: Mem, heads: seq<int>, sh: Shape)
    requires |sh.lists| == |heads| == LEVELS
  {
    forall n :: 0 <= n < LEVELS ==> Chained(m, heads[n], sh.lists[n])
  }

  ghost predicate Heap(m: Mem, heads: seq<int>, sh: Shape, holes: set<int>) {
    && WellShaped(sh)
    && holes <= sh.used
    && ArenasMapped(m, sh.arenas)
    && |heads| == LEVELS
    && HeadersTell(m, sh, holes)
    && AllChained(m, heads, sh)
  }

  // ----- frames -----

  lemma BlockMapped(m: Mem, sh: Shape, p: int)
    requires WellShaped(sh) && ArenasMapped(m, sh.arenas) && p in sh.blocks
    ensures Size(sh.blocks[p]) >= HEADER
    ensures Mapped(m, p, Size(sh.blocks[p]))
    ensures HasHeader(m, p)
    ensures ARENA <= p && p + Size(sh.blocks[p]) <= WORD
  {
    BlockRange(sh.arenas, sh.blocks, p);
    forall x | p <= x < p + Size(sh.blocks[p]) ensures x in m {
      assert InArena(sh.arenas, x);
    }
  }

  lemma HeadersApart(sh: Shape, p: int, q: int)
    requires WellShaped(sh) && p in sh.blocks && q in sh.blocks && p != q
    ensures p + Size(sh.blocks[p]) <= q || q + Size(sh.blocks[q]) <= p
    ensures p + HEADER <= q || q + HEADER <= p
  {
    BlockRange(sh.arenas, sh.blocks, p);
    BlockRange(sh.arenas, sh.blocks, q);
    assert Apart(sh.blocks, p, q);
  }

  /** The header at q reads the same in both memories. */
  lemma HeaderFrame(m: Mem, r: Mem, q: int)
    requires SameBytes(m, r, q, HEADER)
    ensures HasHeader(m, q) && HasHeader(r, q)
    ensures Load(m, q + OFF_N) == Load(r, q + OFF_N)
    ensures Load(m, q + OFF_INUSE) == Load(r, q + OFF_INUSE)
    ensures Load(m, q + OFF_PREV) == Load(r, q + OFF_PREV)
    ensures Load(m, q + OFF_NEXT) == Load(r, q + OFF_NEXT)
  {
    SameBytesLoad(m, r, q + OFF_N);
    SameBytesLoad(m, r, q + OFF_INUSE);
    SameBytesLoad(m, r, q + OFF_PREV);
    SameBytesLoad(m, r, q + OFF_NEXT);
  }

  lemma ChainedFrame(m: Mem, r: Mem, head: int, l: seq<int>)
    requires Chained(m, head, l)
    requires forall i :: 0 <= i < |l| ==> SameBytes(m, r, l[i], HEADER)
    ensures Chained(r, head, l)
  {
    forall i | 0 <= i < |l| ensures Linked(r, l, i) {
      assert Linked(m, l, i);
      HeaderFrame(m, r, l[i]);
    }
  }

  /** Both memories agree except on `k` bytes from `a` and `j` bytes from `b`. */
  ghost predicate OnlyChanged(m: Mem, r: Mem, a: int, k: int, b: int, j: int) {
    && r.Keys == m.Keys
    && forall x :: x in m && !(a <= x < a + k) && !(b <= x < b + j) ==> r[x] == m[x]
  }

  // ----- link_block -----

  function LinkMem(m: Mem, head: int, p: int, n: int): (r: Mem)
    requires HasHeader(m, p) && 0 <= p < WORD && 0 <= n < WORD && 0 <= head < WORD
    requires head != 0 ==> HasHeader(m, head)
    ensures r.Keys == m.Keys
  {
    hide Load, Store;
    var m4 := FreshHeader(m, head, p, n);
    if head != 0 then Store(m4, head + OFF_PREV, p) else m4
  }

  lemma StoreFrame(m: Mem, a: int, v: int, b: int)
    requires Mapped(m, a, 4) && 0 <= v < WORD && Mapped(m, b, 4)
    requires a + 4 <= b || b + 4 <= a
    ensures Mapped(Store(m, a, v), b, 4) && Load(Store(m, a, v), b) == Load(m, b)
  {
    hide Load, Store;
    SameBytesLoad(m, Store(m, a, v), b);
  }

  /** The four stores that fill in the header at p. */
  function FreshHeader(m: Mem, head: int, p: int, n: int): (r: Mem)
    requires HasHeader(m, p) && 0 <= n < WORD && 0 <= head < WORD
    ensures r.Keys == m.Keys
  {
    hide Load, Store;
    var m1 := Store(m, p + OFF_N, n);
    var m2 := Store(m1, p + OFF_INUSE, 0);
    var m3 := Store(m2, p + OFF_PREV, 0);
    Store(m3, p + OFF_NEXT, head)
  }

  lemma FreshHeaderEffect(m: Mem, head: int, p: int, n: int)
    requires HasHeader(m, p) && 0 <= n < WORD && 0 <= head < WORD
    ensures var r := FreshHeader(m, head, p, n);
            && HeaderSays(r, p, n, false)
            && Load(r, p + OFF_PREV) == 0 && Load(r, p + OFF_NEXT) == head
            && OnlyChanged(m, r, p, HEADER, p, 0)
  {
    hide Load, Store;
    var m1 := Store(m, p + OFF_N, n);
    var m2 := Store(m1, p + OFF_INUSE, 0);
    var m3 := Store(m2, p + OFF_PREV, 0);
    StoreFrame(m1, p + OFF_INUSE, 0, p + OFF_N);
    StoreFrame(m2, p + OFF_PREV, 0, p + OFF_N);
    StoreFrame(m2, p + OFF_PREV, 0, p + OFF_INUSE);
    StoreFrame(m3, p + OFF_NEXT, head, p + OFF_N);
    StoreFrame(m3, p + OFF_NEXT, head, p + OFF_INUSE);
    StoreFrame(m3, p + OFF_NEXT, head, p + OFF_PREV);
  }

  ghost predicate SameStatus(m: Mem, r: Mem, q: int) {
    && HasHeader(m, q) && HasHeader(r, q)
    && Load(m, q + OFF_N) == Load(r, q + OFF_N)
    && Load(m, q + OFF_INUSE) == Load(r, q + OFF_INUSE)
  }

  lemma LinkMemEffect(m: Mem, head: int, p: int, n: int)
    requires HasHeader(m, p) && 0 <= p < WORD && 0 <= n < WORD && 0 <= head < WORD
    requires head != 0 ==> HasHeader(m, head) && (p + HEADER <= head || head + HEADER <= p)
    ensures var r := LinkMem(m, head, p, n);
            && HeaderSays(r, p, n, false)
            && Load(r, p + OFF_PREV) == 0 && Load(r, p + OFF_NEXT) == head
            && OnlyChanged(m, r, p, HEADER, head + OFF_PREV, if head == 0 then 0 else 4)
            && (head != 0 ==>
                 && SameStatus(m, r, head)
                 && Load(r, head + OFF_PREV) == p
                 && Load(r, head + OFF_NEXT) == Load(m, head + OFF_NEXT))
  {
    hide Load, Store, FreshHeader;
    var m4 := FreshHeader(m, head, p, n);
    FreshHeaderEffect(m, head, p, n);
    if head != 0 {
      assert SameBytes(m, m4, head, HEADER);
      HeaderFrame(m, m4, head);
      StoreFrame(m4, head + OFF_PREV, p, head + OFF_N);
      StoreFrame(m4, head + OFF_PREV, p, head + OFF_INUSE);
      StoreFrame(m4, head + OFF_PREV, p, head + OFF_NEXT);
      var r := Store(m4, head + OFF_PREV, p);
      assert SameBytes(m4, r, p, HEADER);
      HeaderFrame(m4, r, p);
    }
  }

  ghost function LinkShape(sh: Shape, p: int): Shape
    requires p in sh.blocks && sh.blocks[p] < |sh.lists|
  {
    var n := sh.blocks[p];
    sh.(used := sh.used - {p}, lists := sh.lists[n := [p] + sh.lists[n]])
  }

  lemma LinkKeepsShape(sh: Shape, p: int)
    requires WellShaped(sh) && p in sh.used
    ensures WellShaped(LinkShape(sh, p))
  {
    var r := LinkShape(sh, p);
    var n := sh.blocks[p];
    forall i | 0 <= i < |sh.lists[n]| ensures sh.lists[n][i] != p {
      assert IsFree(sh, sh.lists[n][i], n);
    }
    forall k, i | 0 <= k < LEVELS && 0 <= i < |r.lists[k]| ensures IsFree(r, r.lists[k][i], k) {
      if k != n { assert IsFree(sh, sh.lists[k][i], k); }
      else if i > 0 { assert IsFree(sh, sh.lists[k][i - 1], k); }
    }
    forall q | q in r.blocks && q !in r.used ensures r.blocks[q] < LEVELS && q in r.lists[r.blocks[q]] {
      if q == p { assert r.lists[n][0] == p; }
      else if r.blocks[q] == n {
        var i :| 0 <= i < |sh.lists[n]| && sh.lists[n][i] == q;
        assert r.lists[n][i + 1] == q;
      }
    }
  }

  /** p is a block and not on any list: it and the head of its list are separate headers. */
  lemma LinkReady(m: Mem, heads: seq<int>, sh: Shape, holes: set<int>, p: int)
    requires Heap(m, heads, sh, holes) && p in sh.used
    ensures 0 !in sh.blocks && HasHeader(m, p) && 0 <= p < WORD && |sh.lists| == LEVELS
    ensures MIN_N <= sh.blocks[p] <= MAX_N && 0 <= heads[sh.blocks[p]] < WORD
    ensures var head := heads[sh.blocks[p]];
            head != 0 ==>
                && head in sh.blocks
                && head !in sh.used
                && HasHeader(m, head)
                && (p + HEADER <= head || head + HEADER <= p)
  {
    hide Load, Mapped, Size;
    var n := sh.blocks[p];
    var l := sh.lists[n];
    assert Chained(m, heads[n], l);
    BlockMapped(m, sh, p);
    if 0 in sh.blocks { BlockMapped(m, sh, 0); }
    if l != [] {
      assert IsFree(sh, l[0], n);
      BlockMapped(m, sh, l[0]);
      HeadersApart(sh, p, l[0]);
    }
  }

  /** Changing only words inside the headers at p and h leaves every other header alone. */
  lemma OtherHeaders(m: Mem, r: Mem, sh: Shape, p: int, a: int, k: int, h: int, b: int, j: int)
    requires WellShaped(sh) && ArenasMapped(m, sh.arenas)
    requires k == 0 || (p in sh.blocks && p <= a && a + k <= p + HEADER)
    requires j == 0 || (h in sh.blocks && h <= b && b + j <= h + HEADER)
    requires OnlyChanged(m, r, a, k, b, j)
    ensures forall q :: q in sh.blocks && (k == 0 || q != p) && (j == 0 || q != h) ==> SameBytes(m, r, q, HEADER)
  {
    hide WellShaped, Size;
    forall q | q in sh.blocks && (k == 0 || q != p) && (j == 0 || q != h) ensures SameBytes(m, r, q, HEADER) {
      BlockMapped(m, sh, q);
      if k != 0 { HeadersApart(sh, p, q); }
      if j != 0 { HeadersApart(sh, h, q); }
    }
  }

  lemma LinkKeepsHeap(m: Mem, heads: seq<int>, sh: Shape, holes: set<int>, p: int)
    requires Heap(m, heads, sh, holes) && p in holes
    requires HasHeader(m, p) && 0 <= p < WORD && sh.blocks[p] < LEVELS && 0 <= heads[sh.blocks[p]] < WORD
    requires heads[sh.blocks[p]] != 0 ==> HasHeader(m, heads[sh.blocks[p]])
    ensures Heap(LinkMem(m, heads[sh.blocks[p]], p, sh.blocks[p]),
              heads[sh.blocks[p] := p], LinkShape(sh, p), holes - {p})
  {
    hide Load, Store, LinkMem, Mapped, Tiles, Size;
    var n := sh.blocks[p];
    var head := heads[n];
    LinkReady(m, heads, sh, holes, p);
    var r := LinkMem(m, head, p, n);
    LinkMemEffect(m, head, p, n);
    assert WellShaped(LinkShape(sh, p)) by { LinkKeepsShape(sh, p); }
    OtherHeaders(m, r, sh, p, p, HEADER, head, head + OFF_PREV, if head == 0 then 0 else 4);
    LinkChains(m, r, heads, sh, p);
    forall q | q in sh.blocks && q !in holes && q != p ensures SameStatus(m, r, q) {
      assert HeaderSays(m, q, sh.blocks[q], q in sh.used);
      if q != head { HeaderFrame(m, r, q); }
    }
    LinkHeaders(m, r, sh, holes, p);
  }

  lemma LinkHeaders(m: Mem, r: Mem, sh: Shape, holes: set<int>, p: int)
    requires HeadersTell(m, sh, holes)
    requires p in holes && p in sh.blocks && sh.blocks[p] < |sh.lists|
    requires forall q :: q in sh.blocks && q !in holes ==> SameStatus(m, r, q)
    requires HeaderSays(r, p, sh.blocks[p], false)
    ensures HeadersTell(r, LinkShape(sh, p), holes - {p})
  {
    hide Load;
    var sh' := LinkShape(sh, p);
    forall q | q in sh'.blocks && q !in holes - {p} ensures HeaderSays(r, q, sh'.blocks[q], q in sh'.used) {
      if q != p {
        assert SameStatus(m, r, q) && HeaderSays(m, q, sh.blocks[q], q in sh.used);
      }
    }
  }

  lemma LinkChains(m: Mem, r: Mem, heads: seq<int>, sh: Shape, p: int)
    requires WellShaped(sh) && 0 !in sh.blocks
    requires p in sh.used && sh.blocks[p] <= MAX_N && |heads| == LEVELS && AllChained(m, heads, sh)
    requires HasHeader(r, p) && Load(r, p + OFF_PREV) == 0 && Load(r, p + OFF_NEXT) == heads[sh.blocks[p]]
    requires heads[sh.blocks[p]] != 0 ==>
               var h := heads[sh.blocks[p]];
               HasHeader(m, h) && HasHeader(r, h) && Load(r, h + OFF_PREV) == p
               && Load(r, h + OFF_NEXT) == Load(m, h + OFF_NEXT)
    requires forall q :: q in sh.blocks && q != p && q != heads[sh.blocks[p]] ==> SameBytes(m, r, q, HEADER)
    ensures AllChained(r, heads[sh.blocks[p] := p], LinkShape(sh, p))
  {
    hide Load, Mapped, Tiles, Size;
    var n := sh.blocks[p];
    var l := sh.lists[n];
    var l' := [p] + l;
    assert Chained(m, heads[n], l);
    forall i | 0 <= i < |l'| ensures Linked(r, l', i) {
      if i > 0 {
        assert Linked(m, l, i - 1) && IsFree(sh, l[i - 1], n);
        assert i > 1 ==> l[i - 1] != l[0];
        if i > 1 { HeaderFrame(m, r, l[i - 1]); }
      }
    }
    if l != [] { assert IsFree(sh, l[0], n); }
    OtherChains(m, r, heads, sh, n, p, heads[n]);
  }

  // ----- unlink_block -----

  function UnlinkMem(m: Mem, prev: int, next: int): (r: Mem)
    requires prev != 0 ==> HasHeader(m, prev) && 0 <= prev < WORD
    requires next != 0 ==> HasHeader(m, next) && 0 <= next < WORD
    requires 0 <= prev < WORD && 0 <= next < WORD
    ensures r.Keys == m.Keys
  {
    hide Load, Store;
    var m1 := if prev != 0 then Store(m, prev + OFF_NEXT, next) else m;
    if next != 0 then Store(m1, next + OFF_PREV, prev) else m1
  }

  ghost predicate Separate(p: int, q: int) {
    p != 0 && q != 0 ==> p + HEADER <= q || q + HEADER <= p
  }

  lemma UnlinkMemEffect(m: Mem, prev: int, next: int)
    requires prev != 0 ==> HasHeader(m, prev)
    requires next != 0 ==> HasHeader(m, next)
    requires 0 <= prev < WORD && 0 <= next < WORD && Separate(prev, next)
    ensures var r := UnlinkMem(m, prev, next);
            && OnlyChanged(m, r, prev + OFF_NEXT,
                 if prev == 0 then 0 else 4, next + OFF_PREV, if next == 0 then 0 else 4)
            && (prev != 0 ==>
                 && SameStatus(m, r, prev)
                 && Load(r, prev + OFF_NEXT) == next
                 && Load(r, prev + OFF_PREV) == Load(m, prev + OFF_PREV))
            && (next != 0 ==>
                 && SameStatus(m, r, next)
                 && Load(r, next + OFF_PREV) == prev
                 && Load(r, next + OFF_NEXT) == Load(m, next + OFF_NEXT))
  {
    hide Load, Store;
    var m1 := if prev != 0 then Store(m, prev + OFF_NEXT, next) else m;
    if prev != 0 {
      StoreFrame(m, prev + OFF_NEXT, next, prev + OFF_N);
      StoreFrame(m, prev + OFF_NEXT, next, prev + OFF_INUSE);
      StoreFrame(m, prev + OFF_NEXT, next, prev + OFF_PREV);
    }
    if next != 0 {
      assert SameBytes(m, m1, next, HEADER);
      HeaderFrame(m, m1, next);
      StoreFrame(m1, next + OFF_PREV, prev, next + OFF_N);
      StoreFrame(m1, next + OFF_PREV, prev, next + OFF_INUSE);
      StoreFrame(m1, next + OFF_PREV, prev, next + OFF_NEXT);
      if prev != 0 {
        assert SameBytes(m1, Store(m1, next + OFF_PREV, prev), prev, HEADER);
        HeaderFrame(m1, Store(m1, next + OFF_PREV, prev), prev);
      }
    }
  }

  ghost function Without(l: seq<int>, i: int): seq<int>
    requires 0 <= i < |l|
  {
    l[..i] + l[i + 1..]
  }

  ghost function UnlinkShape(sh: Shape, p: int, i: int): Shape
    requires p in sh.blocks && sh.blocks[p] < |sh.lists| && 0 <= i < |sh.lists[sh.blocks[p]]|
  {
    var n := sh.blocks[p];
    sh.(used := sh.used + {p}, lists := sh.lists[n := Without(sh.lists[n], i)])
  }

  /** A free block is on the list of its level, between the neighbours its header names. */
  lemma UnlinkReady(m: Mem, heads: seq<int>, sh: Shape, holes: set<int>, p: int) returns (i: int)
    requires Heap(m, heads, sh, holes) && p in sh.blocks && p !in sh.used
    ensures MIN_N <= sh.blocks[p] <= MAX_N && 0 !in sh.blocks && |sh.lists| == LEVELS
    ensures var l := sh.lists[sh.blocks[p]];
            && 0 <= i < |l| && l[i] == p && Linked(m, l, i) && Chained(m, heads[sh.blocks[p]], l)
            && (forall j :: 0 <= j < |l| ==>
                 l[j] in sh.blocks && l[j] !in sh.used && HasHeader(m, l[j]) && 0 < l[j] < WORD)
            && (forall j, k :: 0 <= j < |l| && 0 <= k < |l| && j != k ==> Separate(l[j], l[k]))
  {
    hide Load, Mapped, Size;
    var n := sh.blocks[p];
    var l := sh.lists[n];
    i :| 0 <= i < |l| && l[i] == p;
    assert Chained(m, heads[n], l);
    if 0 in sh.blocks { BlockMapped(m, sh, 0); }
    forall j | 0 <= j < |l| ensures l[j] in sh.blocks && l[j] !in sh.used && HasHeader(m, l[j]) && 0 < l[j] < WORD {
      assert IsFree(sh, l[j], n);
      BlockMapped(m, sh, l[j]);
    }
    forall j, k | 0 <= j < |l| && 0 <= k < |l| && j != k ensures Separate(l[j], l[k]) {
      assert l[j] != l[k];
      HeadersApart(sh, l[j], l[k]);
    }
  }

  lemma UnlinkKeepsShape(sh: Shape, p: int, i: int)
    requires WellShaped(sh) && p in sh.blocks && p !in sh.used && sh.blocks[p] < LEVELS
    requires 0 <= i < |sh.lists[sh.blocks[p]]| && sh.lists[sh.blocks[p]][i] == p
    ensures WellShaped(UnlinkShape(sh, p, i))
  {
    hide Tiles;
    var r := UnlinkShape(sh, p, i);
    var n := sh.blocks[p];
    var l := sh.lists[n];
    var l' := r.lists[n];
    assert forall j :: 0 <= j < |l'| ==> l'[j] == l[if j < i then j else j + 1];
    forall k, j | 0 <= k < LEVELS && 0 <= j < |r.lists[k]| ensures IsFree(r, r.lists[k][j], k) {
      if k != n {
        assert IsFree(sh, sh.lists[k][j], k);
      } else {
        assert IsFree(sh, l[if j < i then j else j + 1], n);
        assert l[if j < i then j else j + 1] != l[i];
      }
    }
    forall q | q in r.blocks && q !in r.used ensures r.blocks[q] < LEVELS && q in r.lists[r.blocks[q]] {
      if r.blocks[q] == n {
        var j :| 0 <= j < |l| && l[j] == q;
        assert l'[if j < i then j else j - 1] == q;
      }
    }
  }

  lemma WithoutLinked(m: Mem, r: Mem, l: seq<int>, i: int, j: int, prev: int, next: int)
    requires 0 <= i < |l| && NoRepeats(l) && 0 <= j < |l| - 1
    requires forall k :: 0 <= k < |l| ==> l[k] != 0
    requires forall k :: 0 <= k < |l| ==> Linked(m, l, k)
    requires prev == (if i == 0 then 0 else l[i - 1]) && next == (if i + 1 == |l| then 0 else l[i + 1])
    requires prev != 0 ==>
               && SameStatus(m, r, prev)
               && Load(r, prev + OFF_NEXT) == next
               && Load(r, prev + OFF_PREV) == Load(m, prev + OFF_PREV)
    requires next != 0 ==>
               && SameStatus(m, r, next)
               && Load(r, next + OFF_PREV) == prev
               && Load(r, next + OFF_NEXT) == Load(m, next + OFF_NEXT)
    requires forall k :: 0 <= k < |l| && l[k] != prev && l[k] != next ==> SameBytes(m, r, l[k], HEADER)
    ensures Linked(r, Without(l, i), j)
  {
    hide Load, Mapped;
    var j0 := if j < i then j else j + 1;
    assert Without(l, i)[j] == l[j0];
    assert Linked(m, l, j0);
    if j0 != i - 1 && j0 != i + 1 {
      assert l[j0] != prev && l[j0] != next;
      HeaderFrame(m, r, l[j0]);
    }
  }

  lemma UnlinkChains(m: Mem, r: Mem, heads: seq<int>, sh: Shape, p: int, i: int, prev: int, next: int)
    requires WellShaped(sh) && 0 !in sh.blocks && |heads| == LEVELS && AllChained(m, heads, sh)
    requires p in sh.blocks && p !in sh.used && sh.blocks[p] <= MAX_N
    requires 0 <= i < |sh.lists[sh.blocks[p]]| && sh.lists[sh.blocks[p]][i] == p
    requires prev == (if i == 0 then 0 else sh.lists[sh.blocks[p]][i - 1])
    requires next == (if i + 1 == |sh.lists[sh.blocks[p]]| then 0 else sh.lists[sh.blocks[p]][i + 1])
    requires prev != 0 ==>
               && SameStatus(m, r, prev)
               && Load(r, prev + OFF_NEXT) == next
               && Load(r, prev + OFF_PREV) == Load(m, prev + OFF_PREV)
    requires next != 0 ==>
               && SameStatus(m, r, next)
               && Load(r, next + OFF_PREV) == prev
               && Load(r, next + OFF_NEXT) == Load(m, next + OFF_NEXT)
    requires forall q :: q in sh.blocks && q != prev && q != next ==> SameBytes(m, r, q, HEADER)
    ensures AllChained(r, if prev == 0 then heads[sh.blocks[p] := next] else heads, UnlinkShape(sh, p, i))
  {
    hide Load, Mapped, Tiles, Size;
    var n := sh.blocks[p];
    var l := sh.lists[n];
    var l' := Without(l, i);
    var heads' := if prev == 0 then heads[n := next] else heads;
    assert Chained(m, heads[n], l);
    assert forall j :: 0 <= j < |l| ==> IsFree(sh, l[j], n);
    forall j | 0 <= j < |l'| ensures Linked(r, l', j) {
      WithoutLinked(m, r, l, i, j, prev, next);
    }
    assert Chained(r, heads'[n], l');
    OtherChains(m, r, heads, sh, n, prev, next);
  }

  /** Headers of level n and headers that did not change leave the other lists alone. */
  lemma OtherChains(m: Mem, r: Mem, heads: seq<int>, sh: Shape, n: int, prev: int, next: int)
    requires WellShaped(sh) && 0 !in sh.blocks && |heads| == LEVELS && AllChained(m, heads, sh)
    requires prev != 0 ==> prev in sh.blocks && sh.blocks[prev] == n
    requires next != 0 ==> next in sh.blocks && sh.blocks[next] == n
    requires forall q :: q in sh.blocks && q != prev && q != next ==> SameBytes(m, r, q, HEADER)
    ensures forall k :: 0 <= k < LEVELS && k != n ==> Chained(r, heads[k], sh.lists[k])
  {
    hide Load, Mapped, Tiles, Size;
    forall k | 0 <= k < LEVELS && k != n ensures Chained(r, heads[k], sh.lists[k]) {
      assert Chained(m, heads[k], sh.lists[k]);
      forall j | 0 <= j < |sh.lists[k]| ensures SameBytes(m, r, sh.lists[k][j], HEADER) {
        assert IsFree(sh, sh.lists[k][j], k);
      }
      ChainedFrame(m, r, heads[k], sh.lists[k]);
    }
  }

  lemma UnlinkHeaders(m: Mem, r: Mem, sh: Shape, holes: set<int>, p: int, i: int)
    requires HeadersTell(m, sh, holes)
    requires p in sh.blocks && sh.blocks[p] < |sh.lists| && 0 <= i < |sh.lists[sh.blocks[p]]|
    requires forall q :: q in sh.blocks && q !in holes ==> SameStatus(m, r, q)
    ensures HeadersTell(r, UnlinkShape(sh, p, i), holes + {p})
  {
    hide Load;
    var sh' := UnlinkShape(sh, p, i);
    forall q | q in sh'.blocks && q !in holes + {p} ensures HeaderSays(r, q, sh'.blocks[q], q in sh'.used) {
      assert SameStatus(m, r, q) && HeaderSays(m, q, sh.blocks[q], q in sh.used);
    }
  }

  lemma UnlinkKeepsHeap(m: Mem, heads: seq<int>, sh: Shape, holes: set<int>, p: int, i: int, prev: int, next: int)
    requires Heap(m, heads, sh, holes) && p in sh.blocks && p !in sh.used && sh.blocks[p] < LEVELS
    requires 0 <= i < |sh.lists[sh.blocks[p]]| && sh.lists[sh.blocks[p]][i] == p
    requires prev == (if i == 0 then 0 else sh.lists[sh.blocks[p]][i - 1])
    requires next == (if i + 1 == |sh.lists[sh.blocks[p]]| then 0 else sh.lists[sh.blocks[p]][i + 1])
    requires 0 <= prev < WORD && 0 <= next < WORD
    requires prev != 0 ==> HasHeader(m, prev)
    requires next != 0 ==> HasHeader(m, next)
    ensures Heap(UnlinkMem(m, prev, next),
                 if prev == 0 then heads[sh.blocks[p] := next] else heads, UnlinkShape(sh, p, i), holes + {p})
    ensures OnlyChanged(m, UnlinkMem(m, prev, next), prev + OFF_NEXT,
              if prev == 0 then 0 else 4, next + OFF_PREV, if next == 0 then 0 else 4)
  {
    hide Load, Store, UnlinkMem, Mapped, Tiles, Size;
    var l := sh.lists[sh.blocks[p]];
    var j := UnlinkReady(m, heads, sh, holes, p);
    assert i == j;
    assert Separate(prev, next);
    var r := UnlinkMem(m, prev, next);
    UnlinkMemEffect(m, prev, next);
    assert WellShaped(UnlinkShape(sh, p, i)) by { UnlinkKeepsShape(sh, p, i); }
    OtherHeaders(m, r, sh, prev, prev + OFF_NEXT,
        if prev == 0 then 0 else 4, next, next + OFF_PREV, if next == 0 then 0 else 4);
    UnlinkChains(m, r, heads, sh, p, i, prev, next);
    forall q | q in sh.blocks && q !in holes ensures SameStatus(m, r, q) {
      assert HeaderSays(m, q, sh.blocks[q], q in sh.used);
      if q != prev && q != next { HeaderFrame(m, r, q); }
    }
    UnlinkHeaders(m, r, sh, holes, p, i);
  }
}
