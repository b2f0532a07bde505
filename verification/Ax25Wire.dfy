/** The address field of AX.25 bit by bit, as it is on the air, and the compressed header
    of Flexnet (src/ax25hdr.c). */
module Ax25Wire {
  import opened Ax25Address
  import opened Ax25Header
  import opened Ax25Codec

  // ----- the bits of an encoded header -----

  /** The field of an address at p: the six letters, and a last byte with the same SSID, of
      which bit 7 and bit 0 say what is given. */
  ghost predicate OnAir(f: seq<bv8>, p: nat, a: Address, top: bool, last: bool) {
    && p + 7 <= |f| && f[p..p + 6] == a[..6] && f[p + 6] & 0x1e == a[6] & 0x1e
    && (f[p + 6] & 0x80 != 0 <==> top) && (f[p + 6] & 0x01 != 0 <==> last)
  }

  lemma FieldOnAir(f: seq<bv8>, p: nat, a: Address, b: Address, top: bool, last: bool)
    requires FieldAt(f, p, b) && b[..6] == a[..6] && b[6] & 0x1e == a[6] & 0x1e
    requires (b[6] & 0x80 != 0 <==> top) && (b[6] & 0x01 != 0 <==> last)
    ensures OnAir(f, p, a, top, last) && f[p + 6] == b[6]
  {
    assert f[p..p + 6] == f[p..p + AXALEN][..6];
    assert f[p + 6] == f[p..p + AXALEN][6];
  }

  /** Destination, source and digipeaters follow each other. Bit 7 marks a command in the
      destination, a response in the source, and a digipeater that is done; bit 0 the last
      of them, never the destination. Two more bits of the source say by their absence
      that the frame is DAMA or of the extended kind. */
  lemma EncodedBits(h: Hdr)
    ensures var f, n := Encode(h), |h.path|;
            && |f| == 14 + 7 * n
            && OnAir(f, 0, h.dest, h.cmdrsp == Command, false) && OnAir(f, 7, h.source, h.cmdrsp == Response, n == 0)
            && (f[13] & 0x20 == 0 <==> h.ext & 0x20 != 0) && (f[13] & 0x40 == 0 <==> h.ext & 0x40 != 0)
            && forall i :: 0 <= i < n ==> OnAir(f, 14 + 7 * i, h.path[i], i < h.nextdigi, i == n - 1)
  {
    hide DestField, SourceField, DigiField, FieldAt, OnAir, Encode;
    EncodedFields(h);
    DestBits(h);
    FieldOnAir(Encode(h), 0, h.dest, DestField(h), h.cmdrsp == Command, false);
    SourceOnAir(h);
    FieldOnAir(Encode(h), 7, h.source, SourceField(h), h.cmdrsp == Response, |h.path| == 0);
    forall i | 0 <= i < |h.path| ensures OnAir(Encode(h), 14 + 7 * i, h.path[i], i < h.nextdigi, i == |h.path| - 1) {
      DigiBits(h.path[i], i == |h.path| - 1, i < h.nextdigi);
      FieldOnAir(Encode(h), 14 + 7 * i, h.path[i], DigiField(h.path[i], i == |h.path| - 1, i < h.nextdigi),
                 i < h.nextdigi, i == |h.path| - 1);
    }
  }

  lemma DestBits(h: Hdr)
    ensures var d := DestField(h);
            && d[..6] == h.dest[..6] && d[6] & 0x1e == h.dest[6] & 0x1e
            && (d[6] & 0x80 != 0 <==> h.cmdrsp == Command) && d[6] & 0x01 == 0
  {
  }

  lemma SourceOnAir(h: Hdr)
    ensures var s := SourceField(h);
            && s[..6] == h.source[..6] && s[6] & 0x1e == h.source[6] & 0x1e
            && (s[6] & 0x80 != 0 <==> h.cmdrsp == Response) && (s[6] & 0x01 != 0 <==> |h.path| == 0)
            && (s[6] & 0x20 == 0 <==> h.ext & 0x20 != 0) && (s[6] & 0x40 == 0 <==> h.ext & 0x40 != 0)
  {
    SourceBits(h.source[ALEN], h.cmdrsp.Response?, h.ext, |h.path| == 0);
  }

  lemma DigiBits(a: Address, last: bool, repeated: bool)
    ensures var d := DigiField(a, last, repeated);
            && d[..6] == a[..6] && d[6] & 0x1e == a[6] & 0x1e
            && (d[6] & 0x80 != 0 <==> repeated) && (d[6] & 0x01 != 0 <==> last)
  {
  }

  // ----- the bits of a decoded header -----

  /** What an accepted frame says: by bit 7 of destination and source whether it is a
      command or a response, by bit 0 where the addresses end, and by bit 7 of the
      digipeaters which is next: the one after the last that is done. */
  lemma DecodedBits(frame: seq<bv8>, ext: bv8, h: Hdr, rest: seq<bv8>)
    requires Decode(frame, ext) == Good(h, rest) && frame[1] & 1 == 0
    ensures var n := |h.path|;
            && |frame| == 14 + 7 * n + |rest| && n <= 8 && frame[14 + 7 * n..] == rest && h.qsoNum == -1
            && h.dest == frame[0..7] && h.source == frame[7..14]
            && (h.cmdrsp == Command <==> frame[6] & 0x80 != 0 && frame[13] & 0x80 == 0)
            && (h.cmdrsp == Response <==> frame[6] & 0x80 == 0 && frame[13] & 0x80 != 0)
            && (h.ext & 0x20 != 0 <==> frame[13] & 0x20 == 0) && (h.ext & 0x40 != 0 <==> frame[13] & 0x40 == 0)
            && (frame[13] & 0x01 != 0 <==> n == 0)
            && (forall i :: 0 <= i < n ==> DigiAt(frame, h, i))
            && 0 <= h.nextdigi <= n && (h.nextdigi > 0 ==> h.path[h.nextdigi - 1][6] & 0x80 != 0)
  {
    hide Decode, PathAt;
    DecodedLayout(frame, ext, h, rest);
    DecodedFlags(frame, ext, h, rest);
    FieldByte(frame, 0, h.dest);
    FieldByte(frame, 7, h.source);
    ExtBits(h.source);
    DecodedNumber(frame, ext, h, rest);
    forall i | 0 <= i < |h.path| ensures DigiAt(frame, h, i) {
      assert FieldAt(frame, 2 * AXALEN + AXALEN * i, h.path[i]) by { PathHas(frame, h.path, i); }
    }
  }

  ghost predicate DigiAt(frame: seq<bv8>, h: Hdr, i: nat)
    requires i < |h.path|
  {
    && 21 + 7 * i <= |frame| && h.path[i] == frame[14 + 7 * i..21 + 7 * i]
    && (h.path[i][6] & 0x01 != 0 <==> i == |h.path| - 1)
    && (i >= h.nextdigi ==> h.path[i][6] & 0x80 == 0)
  }

  lemma PathHas(frame: seq<bv8>, path: seq<Address>, i: nat)
    requires PathAt(frame, path) && i < |path|
    ensures FieldAt(frame, 2 * AXALEN + AXALEN * i, path[i])
  {
  }

  lemma ExtBits(source: Address)
    ensures (ExtOf(source) & 0x20 != 0 <==> source[6] & 0x20 == 0)
    ensures (ExtOf(source) & 0x40 != 0 <==> source[6] & 0x40 == 0)
  {
  }

  lemma DecodedNumber(frame: seq<bv8>, ext: bv8, h: Hdr, rest: seq<bv8>)
    requires Decode(frame, ext) == Good(h, rest) && frame[1] & 1 == 0
    ensures h.qsoNum == -1
  {
    if frame[13] & E == 0 {
      var dest: Address, source: Address := frame[..AXALEN], frame[AXALEN..2 * AXALEN];
      NumberKept(Hdr(dest, source, [], 0, CmdRspOf(dest, source), -1, ExtOf(source)), frame[2 * AXALEN..]);
    }
  }

  lemma {:induction false} NumberKept(g: Hdr, bytes: seq<bv8>)
    ensures DecodeDigis(g, bytes).Good? ==> DecodeDigis(g, bytes).h.qsoNum == g.qsoNum
    decreases MAXDIGIS - |g.path|
  {
    if |g.path| < MAXDIGIS && |bytes| >= AXALEN {
      var a: Address := bytes[..AXALEN];
      var path := g.path + [a];
      NumberKept(g.(path := path, nextdigi := if a[ALEN] & REPEATED != 0 then |path| else g.nextdigi), bytes[AXALEN..]);
    }
  }

  // ----- the walks over a raw address field -----

  /** The last byte of address i behind the destination; the source is address 0. */
  function LastByte(buf: seq<bv8>, i: nat): bv8
    requires 14 + 7 * i <= |buf|
  {
    buf[13 + 7 * i]
  }

  /** The first k digipeaters are there and done, and no address before ends the field. */
  ghost predicate Passed(buf: seq<bv8>, k: nat) {
    14 + 7 * k <= |buf| && forall i :: 0 <= i < k ==> DoneBehind(buf, i)
  }

  ghost predicate DoneBehind(buf: seq<bv8>, i: nat) {
    21 + 7 * i <= |buf| && LastByte(buf, i) & 0x01 == 0 && LastByte(buf, i + 1) & 0x80 != 0
  }

  /** The walks on any bytes at all. Where the last digipeater that is done ends the field,
      the frame is for its destination and comes from that one; where another follows,
      it is for that one; and where none follows though the field is not at its end, or
      none may follow, both give up. */
  lemma WalksStop(buf: seq<bv8>, k: nat)
    requires k <= 8 && Passed(buf, k)
    ensures LastByte(buf, k) & 0x01 != 0 ==> RawDest(buf) == 0 && RecvSource(buf) == 7 + 7 * k
    ensures LastByte(buf, k) & 0x01 == 0 && (k == 8 || |buf| < 21 + 7 * k) ==> RawDest(buf) == RecvSource(buf) == -1
    ensures LastByte(buf, k) & 0x01 == 0 && k < 8 && |buf| >= 21 + 7 * k && LastByte(buf, k + 1) & 0x80 == 0 ==>
              RawDest(buf) == 14 + 7 * k && RecvSource(buf) == 7 + 7 * k
  {
    WalksPass(buf, k, 0);
  }

  lemma {:induction false} WalksPass(buf: seq<bv8>, k: nat, j: nat)
    requires j <= k <= 8 && Passed(buf, k)
    ensures DestWalk(buf, 7 + 7 * j, j) == DestWalk(buf, 7 + 7 * k, k)
    ensures SourceWalk(buf, 7 + 7 * j, j, 7 + 7 * j) == SourceWalk(buf, 7 + 7 * k, k, 7 + 7 * k)
    decreases k - j
  {
    if j < k {
      assert DoneBehind(buf, j);
      WalksPass(buf, k, j + 1);
    }
  }

  /** No address ends the field before address k, the destination being address 0. */
  ghost predicate NoEndBefore(buf: seq<bv8>, k: nat) {
    7 * k <= |buf| && forall i :: 0 <= i < k ==> GoesOn(buf, i)
  }

  ghost predicate GoesOn(buf: seq<bv8>, i: nat) {
    7 + 7 * i <= |buf| && buf[6 + 7 * i] & 0x01 == 0
  }

  /** The test for a UI frame on any bytes at all: it looks at the byte behind the first
      address that ends the field, or behind ten addresses and seven bytes more, and at
      its poll bit not at all; frames of up to fifteen bytes are none. */
  lemma UiTestMeans(buf: seq<bv8>, k: nat)
    requires k <= 10 && NoEndBefore(buf, k) && (k == 10 || !GoesOn(buf, k))
    ensures IsUiFrame(buf) <==> |buf| > 15 && |buf| >= 8 + 7 * k && buf[7 + 7 * k] & 0xef == 0x03
  {
    UiWalk(buf, k, 0);
  }

  lemma {:induction false} UiWalk(buf: seq<bv8>, k: nat, j: nat)
    requires j <= k <= 10 && NoEndBefore(buf, k)
    ensures EndOfAddresses(buf, 7 * j, j) == EndOfAddresses(buf, 7 * k, k)
    decreases k - j
  {
    if j < k {
      assert GoesOn(buf, j);
      UiWalk(buf, k, j + 1);
    }
  }

  lemma TooShort(buf: seq<bv8>)
    requires |buf| < 14
    ensures RawDest(buf) == RecvSource(buf) == -1
  {
  }

  // ----- the compressed header -----

  /** A call whose six letters fit into six bits each. */
  ghost predicate SixBits(a: Address) {
    forall i :: 0 <= i < 6 ==> a[i] >= 0x40 && (a[i] - 0x40) & 0x81 == 0
  }

  /** How Flexnet packs a call, the number of a connection (hi and lo) and whether the
      frame is a command into seven bytes; the sending half is there in src/ax25hdr.c, but
      not compiled. */
  function Packed(a: Address, hi: bv8, lo: bv8, command: bool): Address {
    [hi,
     (lo << 2) | (if command then 2 else 0) | 1,
     ((a[0] - 0x40) << 1) | (((a[1] - 0x40) >> 5) & 0x03),
     ((a[1] - 0x40) << 3) | (((a[2] - 0x40) >> 3) & 0x0f),
     ((a[2] - 0x40) << 5) | (((a[3] - 0x40) >> 1) & 0x3f),
     ((a[4] - 0x40) << 1) | (((a[5] - 0x40) >> 5) & 0x03),
     ((a[5] - 0x40) << 3) | ((a[6] >> 1) & 0x0f)]
  }

  /** What was packed is unpacked: the call, the number and the kind of frame. The source
      is none that a station can have, and there are no digipeaters. */
  lemma FlexnetComesBack(a: Address, hi: bv8, lo: bv8, command: bool, ext: bv8, rest: seq<bv8>)
    requires SixBits(a) && lo < 0x40
    ensures Decode(Packed(a, hi, lo, command) + rest, ext) ==
              Good(Hdr(AddrCopy(a), [0x7e, 0x40, 0x40, 0x40, 0x40, 0x40, 0x60], [], 0,
                       if command then Command else Response, hi as int * 64 + lo as int, ext), rest)
  {
    hide Packed, Flexnet;
    var d := Packed(a, hi, lo, command);
    Marked(a, hi, lo, command);
    Unpacked(a, hi, lo, command, ext);
    assert (d + rest)[..AXALEN] == d && (d + rest)[AXALEN..] == rest;
  }

  lemma Marked(a: Address, hi: bv8, lo: bv8, command: bool)
    requires lo < 0x40
    ensures var d := Packed(a, hi, lo, command);
            d[1] & 1 != 0 && (d[1] & 2 != 0 <==> command) && (d[1] >> 2) & 0x3f == lo && d[0] == hi
  {
    MarkBits(lo, 0);
    MarkBits(lo, 2);
  }

  lemma MarkBits(lo: bv8, c: bv8)
    requires lo < 0x40 && (c == 0 || c == 2)
    ensures ((lo << 2) | c | 1) & 1 != 0 && (((lo << 2) | c | 1) & 2 != 0 <==> c == 2)
    ensures (((lo << 2) | c | 1) >> 2) & 0x3f == lo
  {
  }

  lemma Unpacked(a: Address, hi: bv8, lo: bv8, command: bool, ext: bv8)
    requires SixBits(a) && lo < 0x40
    ensures Flexnet(Packed(a, hi, lo, command), ext) ==
              Hdr(AddrCopy(a), [0x7e, 0x40, 0x40, 0x40, 0x40, 0x40, 0x60], [], 0,
                  if command then Command else Response, hi as int * 64 + lo as int, ext)
  {
    hide Packed, Flexnet, SixBits;
    Marked(a, hi, lo, command);
    var d := Packed(a, hi, lo, command);
    var f := Flexnet(d, ext);
    assert f == f.(dest := f.dest, cmdrsp := if command then Command else Response,
                   qsoNum := hi as int * 64 + lo as int, source := [0x7e, 0x40, 0x40, 0x40, 0x40, 0x40, 0x60],
                   path := [], nextdigi := 0, ext := ext) by { Fields(d, ext); }
    LettersUnpacked(a, hi, lo, command, ext);
    assert f.dest == AddrCopy(a);
  }

  lemma Fields(d: Address, ext: bv8)
    ensures var f := Flexnet(d, ext);
            && f.source == [0x7e, 0x40, 0x40, 0x40, 0x40, 0x40, 0x60] && f.path == [] && f.nextdigi == 0 && f.ext == ext
            && f.cmdrsp == (if d[1] & 2 != 0 then Command else Response)
            && f.qsoNum == d[0] as int * 64 + ((d[1] >> 2) & 0x3f) as int
  {
  }

  /** Six bits of a letter, in bits 6 to 1. */
  predicate Six(x: bv8) {
    x & 0x81 == 0
  }

  lemma LettersUnpacked(a: Address, hi: bv8, lo: bv8, command: bool, ext: bv8)
    requires SixBits(a)
    ensures Flexnet(Packed(a, hi, lo, command), ext).dest == AddrCopy(a)
  {
    hide Flexnet, Packed, Six, High, Both, Inner, Low, Ssid, PackedHigh, PackedLow, PackedInner, Shifted, Half;
    AllSix(a);
    var d := Packed(a, hi, lo, command);
    DestBytes(d, ext);
    PackedBytes(a, hi, lo, command);
    FirstLetter(d[2], a[0], a[1]);
    LetterAcross(d[2], d[3], a[0], a[1], Shifted(a[2]));
    ThirdLetter(d[3], d[4], a[1], a[2], a[3]);
    FourthLetter(d[4], a[2], a[3]);
    FirstLetter(d[5], a[4], a[5]);
    LetterAcross(d[5], d[6], a[4], a[5], Half(a[6]));
    SsidComesBack(d[6], a[5], a[6]);
    SsidOfCopy(a);
  }

  lemma SsidOfCopy(a: Address)
    ensures AddrCopy(a) == [a[0], a[1], a[2], a[3], a[4], a[5], Ssid(a[6])]
  {
  }

  // the bytes of the two conversions, each by itself

  function High(p: bv8): bv8 {
    ((p >> 1) & 0x7e) + 0x40
  }

  function Both(p: bv8, q: bv8): bv8 {
    (((p << 5) & 0x60) | ((q >> 3) & 0x1e)) + 0x40
  }

  function Inner(p: bv8, q: bv8): bv8 {
    (((p << 3) & 0x78) | ((q >> 5) & 0x06)) + 0x40
  }

  function Low(q: bv8): bv8 {
    ((q << 1) & 0x7e) + 0x40
  }

  function Ssid(b: bv8): bv8 {
    (b & 0x1e) | 0x60
  }

  function PackedHigh(a: bv8, b: bv8): bv8 {
    ((a - 0x40) << 1) | (((b - 0x40) >> 5) & 0x03)
  }

  function PackedLow(b: bv8, n: bv8): bv8 {
    ((b - 0x40) << 3) | (n & 0x0f)
  }

  function PackedInner(c: bv8, d: bv8): bv8 {
    ((c - 0x40) << 5) | (((d - 0x40) >> 1) & 0x3f)
  }

  function Shifted(c: bv8): bv8 {
    (c - 0x40) >> 3
  }

  function Half(b: bv8): bv8 {
    b >> 1
  }

  lemma DestBytes(d: Address, ext: bv8)
    ensures var b := Flexnet(d, ext).dest;
            && b[0] == High(d[2]) && b[1] == Both(d[2], d[3]) && b[2] == Inner(d[3], d[4]) && b[3] == Low(d[4])
            && b[4] == High(d[5]) && b[5] == Both(d[5], d[6]) && b[6] == Ssid(d[6] << 1)
  {
  }

  lemma PackedBytes(a: Address, hi: bv8, lo: bv8, command: bool)
    ensures var d := Packed(a, hi, lo, command);
            && d[2] == PackedHigh(a[0], a[1]) && d[3] == PackedLow(a[1], Shifted(a[2]))
            && d[4] == PackedInner(a[2], a[3])
            && d[5] == PackedHigh(a[4], a[5]) && d[6] == PackedLow(a[5], Half(a[6]))
  {
  }

  lemma FirstLetter(p: bv8, a: bv8, b: bv8)
    requires Six(a - 0x40) && p == PackedHigh(a, b)
    ensures High(p) == a
  {
  }

  lemma LetterAcross(p: bv8, q: bv8, a: bv8, b: bv8, n: bv8)
    requires Six(a - 0x40) && Six(b - 0x40) && p == PackedHigh(a, b) && q == PackedLow(b, n)
    ensures Both(p, q) == b
  {
  }

  lemma ThirdLetter(p: bv8, q: bv8, b: bv8, c: bv8, d: bv8)
    requires Six(b - 0x40) && Six(c - 0x40) && p == PackedLow(b, Shifted(c)) && q == PackedInner(c, d)
    ensures Inner(p, q) == c
  {
  }

  lemma FourthLetter(q: bv8, c: bv8, d: bv8)
    requires Six(c - 0x40) && Six(d - 0x40) && q == PackedInner(c, d)
    ensures Low(q) == d
  {
  }

  lemma SsidComesBack(q: bv8, b: bv8, s: bv8)
    requires Six(b - 0x40) && q == PackedLow(b, Half(s))
    ensures Ssid(q << 1) == Ssid(s)
  {
  }

  lemma AllSix(a: Address)
    requires SixBits(a)
    ensures Six(a[0] - 0x40) && Six(a[1] - 0x40) && Six(a[2] - 0x40)
    ensures Six(a[3] - 0x40) && Six(a[4] - 0x40) && Six(a[5] - 0x40)
  {
  }
}
