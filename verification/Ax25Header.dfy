/** The AX.25 address field: struct ax25, its network form, and the conversions
    of src/ax25hdr.c. */
module Ax25Header {
  import opened Ax25Address

  const MAXDIGIS := 8

  datatype CmdRsp = Unknown | Command | Response

  /** The value of a struct ax25; path holds the first ndigis entries of digis. */
  datatype Hdr = Hdr(dest: Address, source: Address, path: seq<Address>, nextdigi: int,
                     cmdrsp: CmdRsp, qsoNum: int, ext: bv8)

  predicate WellFormed(h: Hdr) {
    |h.path| <= MAXDIGIS && 0 <= h.nextdigi <= |h.path|
  }

  // ----- host to network -----

  function WithLast(a: Address, b: bv8): Address {
    a[..ALEN] + [b]
  }

  function DestField(h: Hdr): Address {
    var b := if h.cmdrsp.Command? then h.dest[ALEN] | C else h.dest[ALEN] & !C;
    WithLast(h.dest, b & !E)
  }

  function SourceByte(b: bv8, response: bool, ext: bv8, last: bool): bv8 {
    var b0 := if response then b | C else b & !C;
    var b1 := if ext & SSID_EAX25 != 0 then b0 & !SSID_EAX25 else b0 | SSID_EAX25;
    var b2 := if ext & SSID_DAMA != 0 then b1 & !SSID_DAMA else b1 | SSID_DAMA;
    if last then b2 | E else b2 & !E
  }

  function SourceField(h: Hdr): Address {
    WithLast(h.source, SourceByte(h.source[ALEN], h.cmdrsp.Response?, h.ext, |h.path| == 0))
  }

  function DigiField(a: Address, last: bool, repeated: bool): Address {
    var b := if last then a[ALEN] | E else a[ALEN] & !E;
    WithLast(a, if repeated then b | REPEATED else b & !REPEATED)
  }

  /** The fields of the digipeaters from index i on. */
  function DigiFields(path: seq<Address>, nextdigi: int, i: nat): seq<bv8>
    requires i <= |path|
    decreases |path| - i
  {
    if i == |path| then []
    else DigiField(path[i], i == |path| - 1, i < nextdigi) + DigiFields(path, nextdigi, i + 1)
  }

  function Encode(h: Hdr): seq<bv8> {
    DestField(h) + SourceField(h) + DigiFields(h.path, h.nextdigi, 0)
  }

  // ----- network to host -----

  datatype Decoded = Bad | Good(h: Hdr, rest: seq<bv8>)

  /** Decompressing a Flexnet header; ext is left as it was. */
  function Flexnet(d: Address, ext: bv8): Hdr {
    Hdr([((d[2] >> 1) & 0x7e) + 0x40,
         (((d[2] << 5) & 0x60) | ((d[3] >> 3) & 0x1e)) + 0x40,
         (((d[3] << 3) & 0x78) | ((d[4] >> 5) & 0x06)) + 0x40,
         ((d[4] << 1) & 0x7e) + 0x40,
         ((d[5] >> 1) & 0x7e) + 0x40,
         (((d[5] << 5) & 0x60) | ((d[6] >> 3) & 0x1e)) + 0x40,
         ((d[6] << 1) & SSID) | 0x60],
        [0x7e, 0x40, 0x40, 0x40, 0x40, 0x40, 0x60],
        [], 0,
        if d[1] & 2 != 0 then Command else Response,
        d[0] as int * 0x40 + ((d[1] >> 2) & 0x3f) as int,
        ext)
  }

  lemma FlexnetPath(d: Address, ext: bv8)
    ensures var f := Flexnet(d, ext); f.path == [] && f.nextdigi == 0 && f.ext == ext
  {
  }

  function CmdRspOf(dest: Address, source: Address): CmdRsp {
    if source[ALEN] & C == dest[ALEN] & C then Unknown
    else if source[ALEN] & C != 0 then Response
    else Command
  }

  function ExtOf(source: Address): bv8 {
    (if source[ALEN] & SSID_EAX25 == 0 then SSID_EAX25 else 0)
    | (if source[ALEN] & SSID_DAMA == 0 then SSID_DAMA else 0)
  }

  /** Reading digipeaters into h, which already holds some. */
  function DecodeDigis(h: Hdr, bytes: seq<bv8>): Decoded
    decreases MAXDIGIS - |h.path|
  {
    if |h.path| >= MAXDIGIS || |bytes| < AXALEN then Bad
    else
      var a: Address := bytes[..AXALEN];
      var path := h.path + [a];
      var h' := h.(path := path, nextdigi := if a[ALEN] & REPEATED != 0 then |path| else h.nextdigi);
      if a[ALEN] & E != 0 then Good(h', bytes[AXALEN..]) else DecodeDigis(h', bytes[AXALEN..])
  }

  function Decode(bytes: seq<bv8>, ext: bv8): Decoded {
    if |bytes| < AXALEN then Bad
    else
      var dest: Address := bytes[..AXALEN];
      if dest[1] & 1 != 0 then Good(Flexnet(dest, ext), bytes[AXALEN..])
      else if |bytes| < 2 * AXALEN then Bad
      else
        var source: Address := bytes[AXALEN..2 * AXALEN];
        var h := Hdr(dest, source, [], 0, CmdRspOf(dest, source), -1, ExtOf(source));
        if source[ALEN] & E != 0 then Good(h, bytes[2 * AXALEN..])
        else DecodeDigis(h, bytes[2 * AXALEN..])
  }

  /** struct ax25 */
  class Ax25 {
    var dest: Address
    var source: Address
    const digis: array<Address>
    var ndigis: int
    var nextdigi: int
    var cmdrsp: CmdRsp
    var qsoNum: int
    var ext: bv8

    /** A zeroed header. */
    constructor ()
      ensures Valid() && fresh(digis)
      ensures View() == Hdr(NULL_CALL, NULL_CALL, [], 0, Unknown, 0, 0)
    {
      dest, source := NULL_CALL, NULL_CALL;
      digis := new Address[MAXDIGIS](_ => NULL_CALL);
      ndigis, nextdigi, cmdrsp, qsoNum, ext := 0, 0, Unknown, 0, 0;
    }

    ghost predicate Valid()
      reads this
    {
      digis.Length == MAXDIGIS && 0 <= ndigis <= MAXDIGIS
    }

    ghost function View(): Hdr
      reads this, digis
      requires Valid()
    {
      Hdr(dest, source, digis[..ndigis], nextdigi, cmdrsp, qsoNum, ext)
    }

    /** The destination, never marked as the end of the addresses. */
    method PutDest(buf: array<bv8>)
      requires Valid() && AXALEN <= buf.Length && buf as object != digis
      modifies buf
      ensures buf[..] == DestField(View()) + old(buf[AXALEN..])
    {
      var b := dest[ALEN];
      b := if cmdrsp.Command? then b | C else b & !C;
      b := b & !E;
      PutField(buf, 0, dest, b);
    }

    method PutSource(buf: array<bv8>)
      requires Valid() && 2 * AXALEN <= buf.Length && buf as object != digis
      modifies buf
      ensures buf[..] == old(buf[..AXALEN]) + SourceField(View()) + old(buf[2 * AXALEN..])
    {
      var b := SourceByte(source[ALEN], cmdrsp.Response?, ext, ndigis == 0);
      PutField(buf, AXALEN, source, b);
    }

    method PutDigi(buf: array<bv8>, cp: nat, i: nat)
      requires Valid() && i < ndigis && cp + AXALEN <= buf.Length && buf as object != digis
      modifies buf
      ensures buf[..] == old(buf[..cp]) + DigiField(digis[i], i == ndigis - 1, i < nextdigi) + old(buf[cp + AXALEN..])
    {
      var b := digis[i][ALEN];
      b := if i < ndigis - 1 then b & !E else b | E;
      b := if i < nextdigi then b | REPEATED else b & !REPEATED;
      PutField(buf, cp, digis[i], b);
    }

    /** htonax25: the frame is the encoded header in front of the payload. */
    method Htonax25(payload: seq<bv8>) returns (frame: seq<bv8>)
      requires Valid()
      ensures frame == Encode(View()) + payload
    {
      hide DestField, SourceField, DigiField;
      var buf := new bv8[AXALEN * (2 + ndigis)];
      PutDest(buf);
      PutSource(buf);
      ghost var head := DestField(View()) + SourceField(View());
      assert buf[..2 * AXALEN] == head;
      var cp := 2 * AXALEN;
      for i := 0 to ndigis
        invariant cp == AXALEN * (2 + i)
        invariant buf[..cp] + DigiFields(digis[..ndigis], nextdigi, i) == Encode(View())
      {
        ghost var before := buf[..cp];
        ghost var field := DigiField(digis[i], i == ndigis - 1, i < nextdigi);
        ghost var tail := DigiFields(digis[..ndigis], nextdigi, i + 1);
        PutDigi(buf, cp, i);
        assert buf[..cp + AXALEN] == before + field;
        assert before + field + tail == before + (field + tail);
        cp := cp + AXALEN;
      }
      assert buf[..cp] == buf[..];
      frame := buf[..] + payload;
    }

    /** ntohax25: the number of addresses, or -1; rest is what is left of the frame. */
    method Ntohax25(frame: seq<bv8>) returns (n: int, rest: seq<bv8>)
      requires Valid()
      modifies this, digis
      ensures Valid()
      ensures n == -1 <==> Decode(frame, old(ext)).Bad?
      ensures n != -1 ==> Decode(frame, old(ext)) == Good(View(), rest) && n == ndigis + 2
    {
      hide Flexnet, DecodeDigis, CmdRspOf, ExtOf;
      rest := frame;
      if |rest| < AXALEN { return -1, rest; }
      dest, rest := rest[..AXALEN], rest[AXALEN..];
      if dest[1] & 1 != 0 {
        var f := Flexnet(dest, ext);
        FlexnetPath(dest, ext);
        ndigis, nextdigi := 0, 0;
        cmdrsp, qsoNum, dest, source := f.cmdrsp, f.qsoNum, f.dest, f.source;
        return 2, rest;
      }
      qsoNum := -1;
      if |rest| < AXALEN { return -1, rest; }
      source, rest := rest[..AXALEN], rest[AXALEN..];
      assert source == frame[AXALEN..2 * AXALEN] && rest == frame[2 * AXALEN..];
      ndigis, nextdigi := 0, 0;
      ReadMarks();
      if source[ALEN] & E != 0 { return 2, rest; }
      n, rest := ReadDigis(rest);
    }

    /** The part of ntohax25 that reads the flag bits of destination and source. */
    method ReadMarks()
      requires Valid()
      modifies this`cmdrsp, this`ext
      ensures cmdrsp == CmdRspOf(dest, source) && ext == ExtOf(source)
    {
      if source[ALEN] & C == dest[ALEN] & C {
        cmdrsp := Unknown;
      } else if source[ALEN] & C != 0 {
        cmdrsp := Response;
      } else {
        cmdrsp := Command;
      }
      ext := 0;
      if source[ALEN] & SSID_EAX25 == 0 { ext := ext | SSID_EAX25; }
      if source[ALEN] & SSID_DAMA == 0 { ext := ext | SSID_DAMA; }
    }

    /** The loop of ntohax25 over the digipeaters. */
    method ReadDigis(bytes: seq<bv8>) returns (n: int, rest: seq<bv8>)
      requires Valid()
      modifies this`ndigis, this`nextdigi, digis
      ensures Valid()
      ensures n == -1 <==> DecodeDigis(old(View()), bytes).Bad?
      ensures n != -1 ==> DecodeDigis(old(View()), bytes) == Good(View(), rest) && n == ndigis + 2
    {
      rest := bytes;
      while ndigis < MAXDIGIS && |rest| >= AXALEN
        invariant Valid()
        invariant DecodeDigis(old(View()), bytes) == DecodeDigis(View(), rest)
        decreases MAXDIGIS - ndigis
      {
        var axp: Address := rest[..AXALEN];
        ghost var before := View();
        digis[ndigis], rest := axp, rest[AXALEN..];
        ndigis := ndigis + 1;
        if axp[ALEN] & REPEATED != 0 { nextdigi := ndigis; }
        assert digis[..ndigis] == before.path + [axp];
        if axp[ALEN] & E != 0 { return ndigis + 2, rest; }
      }
      return -1, rest;
    }
  }

  const NULL_CALL: Address := [0, 0, 0, 0, 0, 0, 0]

  /** An address copied to the cursor, with its last byte replaced. */
  method PutField(buf: array<bv8>, cp: nat, a: Address, b: bv8)
    requires cp + AXALEN <= buf.Length
    modifies buf
    ensures buf[..] == old(buf[..cp]) + WithLast(a, b) + old(buf[cp + AXALEN..])
  {
    MemCpy(buf, cp, a);
    buf[cp + ALEN] := b;
  }

  method MemCpy(buf: array<bv8>, cp: nat, a: Address)
    requires cp + AXALEN <= buf.Length
    modifies buf
    ensures buf[..] == old(buf[..cp]) + a + old(buf[cp + AXALEN..])
  {
    for i := 0 to AXALEN
      invariant buf[..] == old(buf[..cp]) + a[..i] + old(buf[cp + i..])
    {
      buf[cp + i] := a[i];
    }
  }
}
