/** The buddy allocator of src/alloc.c. */
module Allocator {
  import opened Memory
  import opened Tiling

  const USEROFFSET := 8
  const FREEPATTERN: Byte := 0xbb
  const USEDPATTERN: Byte := 0xdd

  /** What the system answers when the heap has to grow: the value of sbrk(0),
      -1 for failure, whether brk then succeeds, and the bytes of the new memory. */
  datatype Core = Core(top: int, granted: bool, contents: seq<Byte>)

  /** Rounding up to a multiple of Blocksize[MAX_N], by masking off the low bits. */
  function RoundUp(a: int): int {
    (a + ARENA - 1) / ARENA * ARENA
  }

  predicate Grows(core: Core) {
    core.top != -1 && core.granted
  }

  /** null, the exit of an oversized request, or a user area */
  datatype Grant = Denied | Exited | Area(addr: int)

  // ----- the size of a request -----

  /** nb += USEROFFSET - 1 on an unsigned int */
  function Rounded(nb: int): int {
    (nb + USEROFFSET - 1) % WORD
  }

  /** The number of significant bits of w. */
  function Bits(w: nat): nat {
    if w == 0 then 0 else 1 + Bits(w / 2)
  }

  /** The level of the block malloc looks for. */
  function Level(nb: int): (n: nat) {
    var b := Bits(Rounded(nb));
    if b < MIN_N then MIN_N else b
  }

  lemma LevelBound(nb: int)
    ensures Level(nb) >= MIN_N
  {
  }

  lemma {:induction false} BitsRange(w: nat)
    ensures w < Size(Bits(w))
    ensures w > 0 ==> Bits(w) > 0 && Size(Bits(w) - 1) <= w
  {
    if w > 0 { BitsRange(w / 2); }
  }

  /** For a request below the wrap of nb + 7 the level is the least one, from
      MIN_N up, whose block holds the request and its header. */
  lemma LevelIsLeast(nb: int, n: nat)
    requires 0 <= nb < WORD - (USEROFFSET - 1)
    ensures n == Level(nb) <==>
              n >= MIN_N && Size(n) >= nb + USEROFFSET && (n > MIN_N ==> Size(n - 1) < nb + USEROFFSET)
  {
    hide Size, Bits;
    var w := nb + USEROFFSET - 1;
    assert Rounded(nb) == w;
    var b := Bits(w);
    var l := Level(nb);
    BitsRange(w);
    SizeMonotone(b, l);
    if l < n { SizeMonotone(l, n - 1); }
    if MIN_N <= n < l { SizeMonotone(n, l - 1); }
  }

  /** A request so large that nb + 7 wraps is taken for a tiny one: the block
      malloc looks for holds the request exactly when it does not wrap. */
  lemma RequestFitsIff(nb: int)
    requires 0 <= nb < WORD
    ensures Size(Level(nb)) >= nb + USEROFFSET <==> nb < WORD - (USEROFFSET - 1)
  {
    if nb < WORD - (USEROFFSET - 1) {
      LevelIsLeast(nb, Level(nb));
    } else {
      assert Rounded(nb) < 8;
      assert Bits(Rounded(nb)) <= 3;
      assert Size(MIN_N) == 16;
    }
  }

  lemma WrappedRequest()
    ensures Level(0xffff_ffff) == MIN_N && Size(MIN_N) == 16
  {
    assert Rounded(0xffff_ffff) == 6;
    assert Bits(6) == 3;
  }

  lemma Drop2(v: nat)
    requires v >= 4
    ensures Bits(v) == 2 + Bits(v / 4)
  {
    assert v / 2 / 2 == v / 4;
    assert Bits(v) == 1 + Bits(v / 2);
  }

  lemma Drop4(v: nat)
    requires v >= 0x10
    ensures Bits(v) == 4 + Bits(v / 0x10)
  {
    hide Bits;
    Drop2(v);
    Drop2(v / 4);
  }

  lemma Drop8(v: nat)
    requires v >= 0x100
    ensures Bits(v) == 8 + Bits(v / 0x100)
  {
    hide Bits;
    Drop4(v);
    Drop4(v / 0x10);
  }

  lemma Drop16(v: nat)
    requires v >= 0x1_0000
    ensures Bits(v) == 16 + Bits(v / 0x1_0000)
  {
    hide Bits;
    Drop8(v);
    Drop8(v / 0x100);
  }

  /** The size computation of malloc: the bits of v are counted by halves. */
  method SizeIndex(nb: int) returns (n: nat)
    requires 0 <= nb < WORD
    ensures n == Level(nb)
  {
    var v := Rounded(nb);
    n := 0;
    hide Bits;
    if v / 0x1_0000 % 0x1_0000 != 0 { Drop16(v); n := n + 16; v := v / 0x1_0000; }
    assert v < 0x1_0000 && Bits(Rounded(nb)) == n + Bits(v);
    if v / 0x100 % 0x100 != 0 { Drop8(v); n := n + 8; v := v / 0x100; }
    n := SizeIndexOfByte(v, n);
    if n < MIN_N { n := MIN_N; }
  }

  /** The last four of its six tests. */
  method SizeIndexOfByte(v0: nat, n0: nat) returns (n: nat)
    requires v0 < 0x100
    ensures n == n0 + Bits(v0)
  {
    var v := v0;
    n := n0;
    assert Bits(0) == 0 && Bits(1) == 1 + Bits(0);
    assert Bits(2) == 2 && Bits(3) == 2;
    hide Bits;
    if v / 0x10 % 0x10 != 0 { Drop4(v); n := n + 4; v := v / 0x10; }
    assert v < 0x10 && n0 + Bits(v0) == n + Bits(v);
    if v / 4 % 4 != 0 { Drop2(v); n := n + 2; v := v / 4; }
    assert v < 4 && n0 + Bits(v0) == n + Bits(v);
    if v / 2 % 2 != 0 { n := n + 1; v := v / 2; }
    if v % 2 != 0 { n := n + 1; }
  }
}
