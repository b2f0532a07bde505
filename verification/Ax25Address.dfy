/** AX.25 addresses: six shifted characters and an SSID byte that also carries
    flag bits (src/ax25subr.c, src/ax25.c). */
module Ax25Address {

  const ALEN := 6
  const AXALEN := 7

  type Address = a: seq<bv8> | |a| == AXALEN witness [0, 0, 0, 0, 0, 0, 0]

  // bits of the last byte
  const SSID: bv8 := 0x1e
  const REPEATED: bv8 := 0x80
  const E: bv8 := 0x01
  const C: bv8 := 0x80
  const SSID_DAMA: bv8 := 0x20
  const SSID_EAX25: bv8 := 0x40

  /** addreq: equal but for the flag bits */
  predicate AddrEq(a: Address, b: Address) {
    && a[0] == b[0] && a[1] == b[1] && a[2] == b[2] && a[3] == b[3] && a[4] == b[4] && a[5] == b[5]
    && a[6] & SSID == b[6] & SSID
  }

  /** addrcp: the copy without the flag bits */
  function AddrCopy(from: Address): Address {
    from[..ALEN] + [(from[6] & SSID) | 0x60]
  }

  /** addrcp over a run of addresses */
  function Copies(path: seq<Address>): (r: seq<Address>)
    ensures |r| == |path|
    ensures forall i :: 0 <= i < |path| ==> r[i] == AddrCopy(path[i])
  {
    seq(|path|, i requires 0 <= i < |path| => AddrCopy(path[i]))
  }

  lemma CopyIsEqual(a: Address)
    ensures AddrEq(AddrCopy(a), a) && AddrCopy(AddrCopy(a)) == AddrCopy(a)
  {
    SsidKept(a[6]);
  }

  lemma SsidKept(b: bv8)
    ensures ((b & 0x1e) | 0x60) & 0x1e == b & 0x1e
  {
  }

  /** addreq is equality of the copies, hence an equivalence. */
  lemma AddrEqIsSameCopy(a: Address, b: Address)
    ensures AddrEq(a, b) <==> AddrCopy(a) == AddrCopy(b)
  {
    SsidKept(a[6]);
    SsidKept(b[6]);
    var x, y := AddrCopy(a), AddrCopy(b);
    if x == y {
      assert forall i :: 0 <= i < 6 ==> a[i] == x[i] && b[i] == y[i];
      assert x[6] == y[6];
    }
  }

  lemma AddrEqSymmetric(a: Address, b: Address)
    requires AddrEq(a, b)
    ensures AddrEq(b, a)
  {
  }

  lemma AddrEqTransitive(a: Address, b: Address, c: Address)
    requires AddrEq(a, b) && AddrEq(b, c)
    ensures AddrEq(a, c)
  {
  }

  lemma CopyDiffersToo(a: Address, b: Address)
    requires !AddrEq(a, b)
    ensures !AddrEq(a, AddrCopy(b)) && !AddrEq(AddrCopy(b), a)
  {
    AddrEqIsSameCopy(a, b);
    AddrEqIsSameCopy(a, AddrCopy(b));
    AddrEqIsSameCopy(AddrCopy(b), a);
    CopyIsEqual(b);
  }

  /** Bits 1 to 4 of a byte: what axroute_hash keeps of each. */
  function Nibble(b: bv8): int {
    ((b >> 1) & 0x0f) as int
  }

  /** axroute_hash */
  function Hash(call: Address): int {
    Nibble(call[0]) * 0x100_0000 + Nibble(call[1]) * 0x10_0000 + Nibble(call[2]) * 0x1_0000
    + Nibble(call[3]) * 0x1000 + Nibble(call[4]) * 0x100 + Nibble(call[5]) * 0x10 + Nibble(call[6])
  }

  /** Calls that addreq takes for the same are looked for in the same bucket. */
  lemma HashRespectsAddrEq(a: Address, b: Address)
    requires AddrEq(a, b)
    ensures Hash(a) == Hash(b)
  {
    NibbleOfSsid(a[6], b[6]);
  }

  lemma NibbleOfSsid(x: bv8, y: bv8)
    requires x & SSID == y & SSID
    ensures (x >> 1) & 0x0f == (y >> 1) & 0x0f
  {
    assert (x >> 1) & 0x0f == (x & 0x1e) >> 1;
    assert (y >> 1) & 0x0f == (y & 0x1e) >> 1;
  }

  /** The hash is those bits of all seven bytes and nothing else. */
  lemma HashKeepsNibbles(a: Address, b: Address)
    ensures Hash(a) == Hash(b) <==> forall i :: 0 <= i < 7 ==> (a[i] >> 1) & 0x0f == (b[i] >> 1) & 0x0f
  {
    hide Nibble;
    forall i | 0 <= i < 7
      ensures 0 <= Nibble(a[i]) < 16 && 0 <= Nibble(b[i]) < 16
      ensures Nibble(a[i]) == Nibble(b[i]) <==> (a[i] >> 1) & 0x0f == (b[i] >> 1) & 0x0f
    {
      NibbleIs(a[i], b[i]);
    }
    if Hash(a) == Hash(b) {
      var x, y := seq(7, i requires 0 <= i < 7 => Nibble(a[i])), seq(7, i requires 0 <= i < 7 => Nibble(b[i]));
      SameDigits(x, y);
      assert forall i :: 0 <= i < 7 ==> x[i] == Nibble(a[i]) && y[i] == Nibble(b[i]);
    }
  }

  lemma SameDigits(x: seq<int>, y: seq<int>)
    requires |x| == |y| == 7 && forall i :: 0 <= i < 7 ==> 0 <= x[i] < 16 && 0 <= y[i] < 16
    requires x[0] * 0x100_0000 + x[1] * 0x10_0000 + x[2] * 0x1_0000 + x[3] * 0x1000 + x[4] * 0x100 + x[5] * 0x10 + x[6]
          == y[0] * 0x100_0000 + y[1] * 0x10_0000 + y[2] * 0x1_0000 + y[3] * 0x1000 + y[4] * 0x100 + y[5] * 0x10 + y[6]
    ensures x == y
  {
    assert x[0] == y[0];
    assert x[1] == y[1];
    assert x[2] == y[2];
    assert x[3] == y[3];
    assert x[4] == y[4];
    assert x[5] == y[5];
  }

  lemma NibbleIs(x: bv8, y: bv8)
    ensures 0 <= Nibble(x) < 16 && 0 <= Nibble(y) < 16
    ensures Nibble(x) == Nibble(y) <==> (x >> 1) & 0x0f == (y >> 1) & 0x0f
  {
    assert (x >> 1) & 0x0f < 16 && (y >> 1) & 0x0f < 16;
  }
}
