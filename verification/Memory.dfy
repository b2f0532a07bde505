/** Byte-addressed memory of a 32-bit machine: the words that src/alloc.c keeps
    inside the memory it hands out. */
module Memory {

  const WORD := 0x1_0000_0000

  type Byte = x: int | 0 <= x < 0x100

  type Mem = map<int, Byte>

  /** The `k` bytes from address `a` on belong to the process. */
  ghost predicate Mapped(m: Mem, a: int, k: int) {
    forall x :: a <= x < a + k ==> x in m
  }

  function Load(m: Mem, a: int): (v: int)
    requires Mapped(m, a, 4)
    ensures 0 <= v < WORD
  {
    (m[a] as int) + 0x100 * (m[a + 1] as int) + 0x1_0000 * (m[a + 2] as int) + 0x100_0000 * (m[a + 3] as int)
  }

  function Store(m: Mem, a: int, v: int): (r: Mem)
    requires Mapped(m, a, 4)
    requires 0 <= v < WORD
    ensures r.Keys == m.Keys
    ensures Mapped(r, a, 4) && Load(r, a) == v
    ensures forall x :: x in m && !(a <= x < a + 4) ==> r[x] == m[x]
  {
    var v1 := v / 0x100;
    var v2 := v1 / 0x100;
    var v3 := v2 / 0x100;
    m[a := v % 0x100][a + 1 := v1 % 0x100][a + 2 := v2 % 0x100][a + 3 := v3]
  }

  /** memset(a, b, k) */
  function Fill(m: Mem, a: int, k: int, b: Byte): (r: Mem)
    requires Mapped(m, a, k)
    ensures r.Keys == m.Keys
    ensures forall x :: x in m ==> r[x] == if a <= x < a + k then b else m[x]
  {
    map x | x in m :: if a <= x < a + k then b else m[x]
  }

  /** Both memories hold the same bytes in the `k` bytes from `a` on. */
  ghost predicate SameBytes(m: Mem, r: Mem, a: int, k: int) {
    forall x :: a <= x < a + k ==> x in m && x in r && m[x] == r[x]
  }

  /** memcpy(dst, src, k) */
  function Copy(m: Mem, dst: int, src: int, k: int): (r: Mem)
    requires Mapped(m, dst, k) && Mapped(m, src, k)
    ensures r.Keys == m.Keys
    ensures forall x :: x in m ==> r[x] == if dst <= x < dst + k then m[x - dst + src] else m[x]
  {
    map x | x in m :: if dst <= x < dst + k then m[x - dst + src] else m[x]
  }

  /** The `k` bytes from `a` on are all b. */
  ghost predicate AllAre(m: Mem, a: int, k: int, b: Byte) {
    forall x :: a <= x < a + k ==> x in m && m[x] == b
  }

  /** The `k` bytes of r from `dst` on are those of m from `src` on. */
  ghost predicate Copied(m: Mem, src: int, r: Mem, dst: int, k: int) {
    forall x :: dst <= x < dst + k ==> x in r && x - dst + src in m && r[x] == m[x - dst + src]
  }

  lemma SameBytesLoad(m: Mem, r: Mem, a: int)
    requires SameBytes(m, r, a, 4)
    ensures Mapped(m, a, 4) && Mapped(r, a, 4)
    ensures Load(m, a) == Load(r, a)
  {
    assert m[a] == r[a] && m[a + 1] == r[a + 1] && m[a + 2] == r[a + 2] && m[a + 3] == r[a + 3];
  }
}
