/** What the two conversions of src/ax25hdr.c do to each other, and what the
    functions that walk a raw address field find in the same frames. */
module Ax25Codec {
  import opened Ax25Address
  import opened Ax25Header

  // ----- decoding what was encoded -----

  /** The path as it travels: every address with the flags of its field. */
  function SentPath(path: seq<Address>, nextdigi: int): (r: seq<Address>)
    ensures |r| == |path|
  {
    seq(|path|, i requires 0 <= i < |path| => DigiField(path[i], i == |path| - 1, i < nextdigi))
  }

  /** The header that arrives when h is sent. */
  function Sent(h: Hdr): Hdr {
    Hdr(DestField(h), SourceField(h), SentPath(h.path, h.nextdigi),
        h.nextdigi, h.cmdrsp, -1, h.ext & (SSID_EAX25 | SSID_DAMA))
  }

  lemma FieldBits(a: Address, last: bool, repeated: bool)
    ensures DigiField(a, last, repeated)[ALEN] & E != 0 <==> last
    ensures DigiField(a, last, repeated)[ALEN] & REPEATED != 0 <==> repeated
    ensures AddrEq(DigiField(a, last, repeated), a)
  {
  }

  lemma SourceBits(b: bv8, response: bool, ext: bv8, last: bool)
    ensures var r := SourceByte(b, response, ext, last);
            && (r & E != 0 <==> last)
            && (r & C != 0 <==> response)
            && (r & SSID_EAX25 == 0 <==> ext & SSID_EAX25 != 0)
            && (r & SSID_DAMA == 0 <==> ext & SSID_DAMA != 0)
            && r & SSID == b & SSID
  {
  }

  lemma {:induction false} DecodeSentDigis(h: Hdr, g: Hdr, i: nat, payload: seq<bv8>)
    requires WellFormed(h) && i < |h.path|
    requires g.path == SentPath(h.path, h.nextdigi)[..i]
    requires g.nextdigi == if i < h.nextdigi then i else h.nextdigi
    ensures DecodeDigis(g, DigiFields(h.path, h.nextdigi, i) + payload)
         == Good(g.(path := SentPath(h.path, h.nextdigi), nextdigi := h.nextdigi), payload)
    decreases |h.path| - i
  {
    hide DigiField;
    var a := DigiField(h.path[i], i == |h.path| - 1, i < h.nextdigi);
    FieldBits(h.path[i], i == |h.path| - 1, i < h.nextdigi);
    var tail := DigiFields(h.path, h.nextdigi, i + 1);
    var bytes := DigiFields(h.path, h.nextdigi, i) + payload;
    assert bytes == a + (tail + payload);
    assert bytes[..AXALEN] == a && bytes[AXALEN..] == tail + payload;
    var path := g.path + [a];
    assert path == SentPath(h.path, h.nextdigi)[..i + 1];
    var g' := g.(path := path, nextdigi := if i < h.nextdigi then |path| else g.nextdigi);
    if i + 1 < |h.path| {
      DecodeSentDigis(h, g', i + 1, payload);
    } else {
      assert tail == [] && tail + payload == payload;
      assert path == SentPath(h.path, h.nextdigi);
    }
  }

  /** ntohax25 after htonax25: the same header but for the flag bits of the
      addresses, and the payload untouched. */
  lemma RoundTrip(h: Hdr, payload: seq<bv8>, ext: bv8)
    requires WellFormed(h) && h.dest[1] & 1 == 0
    ensures Decode(Encode(h) + payload, ext) == Good(Sent(h), payload)
  {
    hide DecodeDigis, DigiFields;
    var frame := Encode(h) + payload;
    var d, s := DestField(h), SourceField(h);
    assert frame[..AXALEN] == d && frame[AXALEN..2 * AXALEN] == s;
    assert frame[2 * AXALEN..] == DigiFields(h.path, h.nextdigi, 0) + payload;
    SourceBits(h.source[ALEN], h.cmdrsp.Response?, h.ext, |h.path| == 0);
    SentCmdRsp(h);
    SentExt(h);
    assert d[1] == h.dest[1];
    var g := Hdr(d, s, [], 0, CmdRspOf(d, s), -1, ExtOf(s));
    if |h.path| > 0 {
      DecodeSentDigis(h, g, 0, payload);
    } else {
      NoDigis(h, payload);
    }
  }

  lemma NoDigis(h: Hdr, payload: seq<bv8>)
    requires WellFormed(h) && h.path == []
    ensures DigiFields(h.path, h.nextdigi, 0) + payload == payload && SentPath(h.path, h.nextdigi) == []
  {
  }

  lemma SentCmdRsp(h: Hdr)
    ensures CmdRspOf(DestField(h), SourceField(h)) == h.cmdrsp
  {
    SourceBits(h.source[ALEN], h.cmdrsp.Response?, h.ext, |h.path| == 0);
    SourceC(h);
  }

  lemma SourceC(h: Hdr)
    ensures SourceField(h)[ALEN] & C == if h.cmdrsp.Response? then C else 0
  {
  }

  lemma SentExt(h: Hdr)
    ensures ExtOf(SourceField(h)) == h.ext & (SSID_EAX25 | SSID_DAMA)
  {
    SourceBits(h.source[ALEN], h.cmdrsp.Response?, h.ext, |h.path| == 0);
  }

  /** What arrives names the same stations in the same places. */
  lemma SentNamesTheSame(h: Hdr)
    ensures AddrEq(Sent(h).dest, h.dest) && AddrEq(Sent(h).source, h.source)
    ensures |Sent(h).path| == |h.path|
    ensures forall i :: 0 <= i < |h.path| ==> AddrEq(Sent(h).path[i], h.path[i])
  {
    SourceBits(h.source[ALEN], h.cmdrsp.Response?, h.ext, |h.path| == 0);
    forall i | 0 <= i < |h.path| ensures AddrEq(Sent(h).path[i], h.path[i]) {
      FieldBits(h.path[i], i == |h.path| - 1, i < h.nextdigi);
    }
  }

  // ----- where the addresses of an accepted frame lie -----

  predicate Ends(a: Address) { a[ALEN] & E != 0 }

  predicate Repeated(a: Address) { a[ALEN] & REPEATED != 0 }

  ghost predicate FieldAt(frame: seq<bv8>, p: int, a: Address) {
    0 <= p && p + AXALEN <= |frame| && frame[p..p + AXALEN] == a
  }

  ghost predicate PathAt(frame: seq<bv8>, path: seq<Address>) {
    forall i :: 0 <= i < |path| ==> FieldAt(frame, 2 * AXALEN + AXALEN * i, path[i])
  }

  /** nextdigi is the index behind the last address with the REPEATED bit. */
  ghost predicate AfterLastRepeated(path: seq<Address>, nextdigi: int) {
    && 0 <= nextdigi <= |path|
    && (nextdigi > 0 ==> Repeated(path[nextdigi - 1]))
    && forall i :: nextdigi <= i < |path| ==> !Repeated(path[i])
  }

  /** h and rest are laid out in the frame, only the last address ends the field. */
  ghost predicate Layout(frame: seq<bv8>, h: Hdr, rest: seq<bv8>) {
    && |h.path| <= MAXDIGIS
    && |frame| == 2 * AXALEN + AXALEN * |h.path| + |rest|
    && frame[2 * AXALEN + AXALEN * |h.path|..] == rest
    && FieldAt(frame, 0, h.dest) && FieldAt(frame, AXALEN, h.source) && PathAt(frame, h.path)
    && (Ends(h.source) <==> h.path == [])
    && (forall i :: 0 <= i < |h.path| ==> (Ends(h.path[i]) <==> i == |h.path| - 1))
    && AfterLastRepeated(h.path, h.nextdigi)
  }

  lemma FieldFound(frame: seq<bv8>, p: int, a: Address)
    requires 0 <= p && p + AXALEN <= |frame| && frame[p..][..AXALEN] == a
    ensures FieldAt(frame, p, a)
  {
  }

  lemma PathExtends(frame: seq<bv8>, path: seq<Address>, a: Address)
    requires PathAt(frame, path) && FieldAt(frame, 2 * AXALEN + AXALEN * |path|, a)
    ensures PathAt(frame, path + [a])
  {
  }

  lemma LastRepeatedExtends(path: seq<Address>, nextdigi: int, a: Address)
    requires AfterLastRepeated(path, nextdigi)
    ensures AfterLastRepeated(path + [a], if a[ALEN] & REPEATED != 0 then |path| + 1 else nextdigi)
  {
  }

  lemma {:induction false} DigisLayout(frame: seq<bv8>, g: Hdr, h: Hdr, rest: seq<bv8>)
    requires FieldAt(frame, 0, g.dest) && FieldAt(frame, AXALEN, g.source) && PathAt(frame, g.path)
    requires !Ends(g.source) && forall i :: 0 <= i < |g.path| ==> !Ends(g.path[i])
    requires AfterLastRepeated(g.path, g.nextdigi)
    requires 2 * AXALEN + AXALEN * |g.path| <= |frame|
    requires DecodeDigis(g, frame[2 * AXALEN + AXALEN * |g.path|..]) == Good(h, rest)
    ensures Layout(frame, h, rest) && h.dest == g.dest && h.source == g.source
    decreases MAXDIGIS - |g.path|
  {
    hide PathAt, AfterLastRepeated, FieldAt;
    var p := 2 * AXALEN + AXALEN * |g.path|;
    var bytes := frame[p..];
    var a: Address := bytes[..AXALEN];
    var path := g.path + [a];
    var g' := g.(path := path, nextdigi := if Repeated(a) then |path| else g.nextdigi);
    FieldFound(frame, p, a);
    assert bytes[AXALEN..] == frame[2 * AXALEN + AXALEN * |path|..];
    PathExtends(frame, g.path, a);
    LastRepeatedExtends(g.path, g.nextdigi, a);
    if !Ends(a) {
      DigisLayout(frame, g', h, rest);
    }
  }

  /** Every frame that ntohax25 accepts, and that is not a Flexnet frame. */
  lemma DecodedLayout(frame: seq<bv8>, ext: bv8, h: Hdr, rest: seq<bv8>)
    requires Decode(frame, ext) == Good(h, rest) && frame[1] & 1 == 0
    ensures Layout(frame, h, rest)
  {
    hide DecodeDigis, Flexnet;
    var dest: Address := frame[..AXALEN];
    var source: Address := frame[AXALEN..2 * AXALEN];
    assert frame[0..AXALEN] == dest;
    if !Ends(source) {
      var g := Hdr(dest, source, [], 0, CmdRspOf(dest, source), -1, ExtOf(source));
      DigisLayout(frame, g, h, rest);
    }
  }

  // ----- sending on what was received -----

  /** The REPEATED bits form a prefix of the path. */
  ghost predicate Contiguous(h: Hdr) {
    forall i :: 0 <= i < |h.path| ==> (Repeated(h.path[i]) <==> i < h.nextdigi)
  }

  /** The station a frame is immediately for, as ax_recv sees it. */
  function ImmediateDest(h: Hdr): Address
    requires WellFormed(h)
  {
    if |h.path| != 0 && h.nextdigi != |h.path| then h.path[h.nextdigi] else h.dest
  }

  /** The station a frame comes immediately from, as ax_recv sees it. */
  function ImmediateSource(h: Hdr): Address
    requires WellFormed(h)
  {
    if |h.path| != 0 && h.nextdigi != 0 then h.path[h.nextdigi - 1] else h.source
  }

  /** Where ax_recv finds the station a frame is immediately for. */
  function DestOffset(h: Hdr): int {
    if |h.path| != 0 && h.nextdigi != |h.path| then 2 * AXALEN + AXALEN * h.nextdigi else 0
  }

  /** Where ax_recv finds the station a frame comes immediately from. */
  function SourceOffset(h: Hdr): int {
    if |h.path| != 0 && h.nextdigi != 0 then 2 * AXALEN + AXALEN * (h.nextdigi - 1) else AXALEN
  }

  // ----- passing a frame on -----

  lemma {:induction false} DigiFieldsAt(path: seq<Address>, nextdigi: int, i: nat, k: nat)
    requires i <= k < |path|
    ensures |DigiFields(path, nextdigi, i)| == AXALEN * (|path| - i)
    ensures DigiFields(path, nextdigi, i)[AXALEN * (k - i)..AXALEN * (k - i) + AXALEN] ==
              DigiField(path[k], k == |path| - 1, k < nextdigi)
    decreases |path| - i
  {
    hide DigiField;
    var f: seq<bv8> := DigiField(path[i], i == |path| - 1, i < nextdigi);
    var tail: seq<bv8> := DigiFields(path, nextdigi, i + 1);
    if i + 1 < |path| {
      DigiFieldsAt(path, nextdigi, i + 1, if k > i then k else i + 1);
    }
    if k == i {
      assert (f + tail)[0..AXALEN] == f;
    } else {
      assert (f + tail)[AXALEN * (k - i)..AXALEN * (k - i) + AXALEN] ==
             tail[AXALEN * (k - i - 1)..AXALEN * (k - i - 1) + AXALEN];
    }
  }

  lemma EncodedFields(h: Hdr)
    ensures |Encode(h)| == 2 * AXALEN + AXALEN * |h.path|
    ensures FieldAt(Encode(h), 0, DestField(h)) && FieldAt(Encode(h), AXALEN, SourceField(h))
    ensures forall i :: 0 <= i < |h.path| ==>
              FieldAt(Encode(h), 2 * AXALEN + AXALEN * i, DigiField(h.path[i], i == |h.path| - 1, i < h.nextdigi))
  {
    hide DestField, SourceField, DigiField;
    var digis := DigiFields(h.path, h.nextdigi, 0);
    if h.path != [] { DigiFieldsAt(h.path, h.nextdigi, 0, 0); }
    forall i | 0 <= i < |h.path|
      ensures FieldAt(Encode(h), 2 * AXALEN + AXALEN * i, DigiField(h.path[i], i == |h.path| - 1, i < h.nextdigi))
    {
      DigiFieldsAt(h.path, h.nextdigi, 0, i);
      assert Encode(h)[2 * AXALEN + AXALEN * i..2 * AXALEN + AXALEN * i + AXALEN] ==
             digis[AXALEN * i..AXALEN * i + AXALEN];
    }
  }

  /** Two frames with the same fields and the same rest are the same. */
  lemma SameFields(f: seq<bv8>, g: seq<bv8>, n: nat)
    requires |f| == |g| >= AXALEN * n && f[AXALEN * n..] == g[AXALEN * n..]
    requires forall k :: 0 <= k < n ==> Slot(f, k) == Slot(g, k)
    ensures f == g
  {
    forall x | 0 <= x < |f| ensures f[x] == g[x] {
      if x < AXALEN * n {
        var k := x / AXALEN;
        assert Slot(f, k)[x - AXALEN * k] == Slot(g, k)[x - AXALEN * k];
      } else {
        assert f[AXALEN * n..][x - AXALEN * n] == g[AXALEN * n..][x - AXALEN * n];
      }
    }
  }

  ghost function Slot(f: seq<bv8>, k: nat): seq<bv8> {
    if AXALEN * k + AXALEN <= |f| then f[AXALEN * k..AXALEN * k + AXALEN] else []
  }

  predicate HasC(a: Address) { a[ALEN] & C != 0 }

  lemma DestFieldIff(h: Hdr)
    requires h.cmdrsp == CmdRspOf(h.dest, h.source)
    ensures DestField(h) == h.dest <==> !Ends(h.dest) && !(HasC(h.dest) && HasC(h.source))
  {
    var b := if h.cmdrsp.Command? then h.dest[ALEN] | C else h.dest[ALEN] & !C;
    assert b & !E == h.dest[ALEN] <==> !Ends(h.dest) && !(HasC(h.dest) && HasC(h.source));
    assert DestField(h)[ALEN] == b & !E;
  }

  lemma SourceFieldIff(h: Hdr)
    requires h.cmdrsp == CmdRspOf(h.dest, h.source) && h.ext == ExtOf(h.source) && (Ends(h.source) <==> h.path == [])
    ensures SourceField(h) == h.source <==> !(HasC(h.dest) && HasC(h.source))
  {
    var b := h.source[ALEN];
    var c := HasC(h.dest) && HasC(h.source);
    SourceByteKept(b, h.cmdrsp.Response?, h.ext, |h.path| == 0);
    assert SourceField(h)[ALEN] == SourceByte(b, h.cmdrsp.Response?, h.ext, |h.path| == 0);
    CBits(h.dest[ALEN], b);
  }

  lemma CBits(d: bv8, s: bv8)
    ensures (s & C == d & C) || s & C != 0 || d & C != 0
    ensures s & C == d & C && s & C != 0 ==> d & C != 0
    ensures s & C != d & C && s & C != 0 ==> d & C == 0
  {
  }

  lemma SourceByteKept(b: bv8, response: bool, ext: bv8, last: bool)
    requires ext & SSID_EAX25 != 0 <==> b & SSID_EAX25 == 0
    requires ext & SSID_DAMA != 0 <==> b & SSID_DAMA == 0
    requires last <==> b & E != 0
    ensures SourceByte(b, response, ext, last) == b <==> (response <==> b & C != 0)
  {
  }

  lemma DigiFieldIff(a: Address, last: bool, repeated: bool)
    requires Ends(a) <==> last
    ensures DigiField(a, last, repeated) == a <==> (Repeated(a) <==> repeated)
  {
    var b := if last then a[ALEN] | E else a[ALEN] & !E;
    assert b == a[ALEN];
    assert DigiField(a, last, repeated)[ALEN] == if repeated then b | REPEATED else b & !REPEATED;
  }

  /** A frame that is read and passed on without a change of its header leaves
      byte for byte as it came, exactly when its destination does not end the
      field, not both C bits are set and the REPEATED bits form a prefix. */
  lemma PassedOnUnchangedIff(frame: seq<bv8>, ext: bv8, h: Hdr, rest: seq<bv8>)
    requires Decode(frame, ext) == Good(h, rest) && frame[1] & 1 == 0
    ensures Encode(h) + rest == frame <==> !Ends(h.dest) && !(HasC(h.dest) && HasC(h.source)) && Contiguous(h)
  {
    DecodedLayout(frame, ext, h, rest);
    DecodedFlags(frame, ext, h, rest);
    EncodedIff(frame, h, rest);
    DestFieldIff(h);
    SourceFieldIff(h);
    hide Decode, Encode, DestField, SourceField, DigiField, Repeated, Ends;
    forall i | 0 <= i < |h.path|
      ensures DigiField(h.path[i], i == |h.path| - 1, i < h.nextdigi) == h.path[i] <==>
                (Repeated(h.path[i]) <==> i < h.nextdigi)
    {
      DigiFieldIff(h.path[i], i == |h.path| - 1, i < h.nextdigi);
    }
  }

  lemma DecodedFlags(frame: seq<bv8>, ext: bv8, h: Hdr, rest: seq<bv8>)
    requires Decode(frame, ext) == Good(h, rest) && frame[1] & 1 == 0
    ensures h.cmdrsp == CmdRspOf(h.dest, h.source) && h.ext == ExtOf(h.source)
  {
    hide DecodeDigis, Flexnet, CmdRspOf, ExtOf;
    var dest: Address := frame[..AXALEN];
    var source: Address := frame[AXALEN..2 * AXALEN];
    if !Ends(source) {
      var g := Hdr(dest, source, [], 0, CmdRspOf(dest, source), -1, ExtOf(source));
      DigisKeepFlags(g, frame[2 * AXALEN..]);
    }
  }

  lemma {:induction false} DigisKeepFlags(g: Hdr, bytes: seq<bv8>)
    ensures var d := DecodeDigis(g, bytes);
            d.Good? ==> d.h.cmdrsp == g.cmdrsp && d.h.ext == g.ext && d.h.dest == g.dest && d.h.source == g.source
    decreases MAXDIGIS - |g.path|
  {
    if |g.path| < MAXDIGIS && |bytes| >= AXALEN {
      var a: Address := bytes[..AXALEN];
      var path := g.path + [a];
      DigisKeepFlags(g.(path := path, nextdigi := if Repeated(a) then |path| else g.nextdigi), bytes[AXALEN..]);
    }
  }

  lemma EncodedSlots(frame: seq<bv8>, h: Hdr, rest: seq<bv8>)
    requires Layout(frame, h, rest)
    ensures var f := Encode(h) + rest;
            var n := 2 + |h.path|;
            && |f| == |frame| >= AXALEN * n && f[AXALEN * n..] == frame[AXALEN * n..]
            && Slot(f, 0) == DestField(h) && Slot(frame, 0) == h.dest
            && Slot(f, 1) == SourceField(h) && Slot(frame, 1) == h.source
            && forall i :: 0 <= i < |h.path| ==>
                 Slot(f, i + 2) == DigiField(h.path[i], i == |h.path| - 1, i < h.nextdigi)
                     && Slot(frame, i + 2) == h.path[i]
  {
    hide Encode, DestField, SourceField, DigiField;
    EncodedFields(h);
    var f := Encode(h) + rest;
    SlotsOf(f, 2 + |h.path|);
    SlotsOf(frame, 2 + |h.path|);
    assert Encode(h)[0..AXALEN] == f[0..AXALEN] && Encode(h)[AXALEN..2 * AXALEN] == f[AXALEN..2 * AXALEN];
    forall i | 0 <= i < |h.path|
      ensures Slot(f, i + 2) == DigiField(h.path[i], i == |h.path| - 1, i < h.nextdigi)
      ensures Slot(frame, i + 2) == h.path[i]
    {
      var p := 2 * AXALEN + AXALEN * i;
      assert FieldAt(Encode(h), p, DigiField(h.path[i], i == |h.path| - 1, i < h.nextdigi))
             && FieldAt(frame, p, h.path[i]);
      assert f[p..p + AXALEN] == Encode(h)[p..p + AXALEN];
    }
  }

  lemma EncodedIff(frame: seq<bv8>, h: Hdr, rest: seq<bv8>)
    requires Layout(frame, h, rest)
    ensures Encode(h) + rest == frame <==>
              && DestField(h) == h.dest && SourceField(h) == h.source
              && forall i :: 0 <= i < |h.path| ==> DigiField(h.path[i], i == |h.path| - 1, i < h.nextdigi) == h.path[i]
  {
    hide Encode, DestField, SourceField, DigiField, Layout, Slot;
    EncodedSlots(frame, h, rest);
    var f := Encode(h) + rest;
    if f == frame {
      forall i | 0 <= i < |h.path| ensures DigiField(h.path[i], i == |h.path| - 1, i < h.nextdigi) == h.path[i] {
        assert Slot(f, i + 2) == Slot(frame, i + 2);
      }
    }
    if DestField(h) == h.dest && SourceField(h) == h.source
       && forall i :: 0 <= i < |h.path| ==> DigiField(h.path[i], i == |h.path| - 1, i < h.nextdigi) == h.path[i] {
      forall k | 0 <= k < 2 + |h.path| ensures Slot(f, k) == Slot(frame, k) {
        if k >= 2 {
          var i := k - 2;
          assert DigiField(h.path[i], i == |h.path| - 1, i < h.nextdigi) == h.path[i];
        }
      }
      SameFields(f, frame, 2 + |h.path|);
    }
  }

  lemma SlotsOf(f: seq<bv8>, n: nat)
    requires |f| >= AXALEN * n
    ensures forall k :: 0 <= k < n ==> Slot(f, k) == f[AXALEN * k..AXALEN * k + AXALEN]
  {
  }

  // ----- axip_raw: the immediate destination -----

  const FAILED := -1

  predicate EndsAt(buf: seq<bv8>, p: int)
    requires 0 <= p && p + AXALEN <= |buf|
  {
    buf[p + ALEN] & E != 0
  }

  predicate RepeatedAt(buf: seq<bv8>, p: int)
    requires 0 <= p && p + AXALEN <= |buf|
  {
    buf[p + ALEN] & REPEATED != 0
  }

  function DestWalk(buf: seq<bv8>, p: int, ndigi: int): int
    requires 0 <= p && p + AXALEN <= |buf|
    decreases |buf| - p
  {
    if EndsAt(buf, p) then 0
    else if ndigi >= MAXDIGIS || p + 2 * AXALEN > |buf| then FAILED
    else if !RepeatedAt(buf, p + AXALEN) then p + AXALEN
    else DestWalk(buf, p + AXALEN, ndigi + 1)
  }

  function RawDest(buf: seq<bv8>): int {
    if |buf| < 2 * AXALEN then FAILED else DestWalk(buf, AXALEN, 0)
  }

  /** The walk of axip_raw: the offset of the immediate destination, or -1. */
  method FindDest(buf: seq<bv8>) returns (dest: int)
    ensures dest == RawDest(buf)
  {
    if |buf| < 2 * AXALEN { return FAILED; }
    dest := 0;
    var p := dest + AXALEN;
    var ndigi := 0;
    while buf[p + ALEN] & E == 0
      invariant 0 <= p && p + AXALEN <= |buf| && dest == 0
      invariant RawDest(buf) == DestWalk(buf, p, ndigi)
      decreases |buf| - p
    {
      if ndigi >= MAXDIGIS || p + 2 * AXALEN > |buf| { return FAILED; }
      p := p + AXALEN;
      if buf[p + ALEN] & REPEATED == 0 {
        dest := p;
        break;
      }
      ndigi := ndigi + 1;
    }
  }

  // ----- axip_recv: the immediate source -----

  function SourceWalk(buf: seq<bv8>, p: int, ndigi: int, src: int): int
    requires 0 <= p && p + AXALEN <= |buf|
    decreases |buf| - p
  {
    if EndsAt(buf, p) then src
    else if ndigi >= MAXDIGIS || p + 2 * AXALEN > |buf| then FAILED
    else if RepeatedAt(buf, p + AXALEN) then SourceWalk(buf, p + AXALEN, ndigi + 1, p + AXALEN)
    else src
  }

  function RecvSource(buf: seq<bv8>): int {
    if |buf| < 2 * AXALEN then FAILED else SourceWalk(buf, AXALEN, 0, AXALEN)
  }

  /** The walk of axip_recv: the offset of the immediate source, or -1. */
  method FindSource(buf: seq<bv8>) returns (src: int)
    ensures src == RecvSource(buf)
  {
    if |buf| < 2 * AXALEN { return FAILED; }
    src := AXALEN;
    var p := src;
    var ndigi := 0;
    while buf[p + ALEN] & E == 0
      invariant 0 <= p && p + AXALEN <= |buf|
      invariant RecvSource(buf) == SourceWalk(buf, p, ndigi, src)
      decreases |buf| - p
    {
      if ndigi >= MAXDIGIS || p + 2 * AXALEN > |buf| { return FAILED; }
      p := p + AXALEN;
      if buf[p + ALEN] & REPEATED != 0 {
        src := p;
      } else {
        break;
      }
      ndigi := ndigi + 1;
    }
  }

  // ----- the walkers against ntohax25 -----

  /** The index of the first digipeater from k on without the REPEATED bit. */
  function FirstUnrepeated(path: seq<Address>, k: nat): (f: nat)
    requires k <= |path|
    ensures k <= f <= |path|
    ensures f < |path| ==> !Repeated(path[f])
    ensures forall i :: k <= i < f ==> Repeated(path[i])
    decreases |path| - k
  {
    if k == |path| || !Repeated(path[k]) then k else FirstUnrepeated(path, k + 1)
  }

  lemma FieldByte(frame: seq<bv8>, p: int, a: Address)
    requires FieldAt(frame, p, a)
    ensures frame[p + ALEN] == a[ALEN]
  {
    assert frame[p..p + AXALEN][ALEN] == frame[p + ALEN];
  }

  /** The address at walk position k: the source, then the digipeaters. */
  lemma WalkPosition(frame: seq<bv8>, h: Hdr, rest: seq<bv8>, k: nat)
    requires Layout(frame, h, rest) && k <= |h.path|
    ensures AXALEN * k + 2 * AXALEN <= |frame| && |h.path| <= MAXDIGIS
    ensures EndsAt(frame, AXALEN + AXALEN * k) <==> k == |h.path|
    ensures k < |h.path| ==> AXALEN * k + 3 * AXALEN <= |frame|
    ensures k < |h.path| ==> (RepeatedAt(frame, AXALEN + AXALEN * k + AXALEN) <==> Repeated(h.path[k]))
  {
    if k == 0 {
      FieldByte(frame, AXALEN, h.source);
    } else {
      assert FieldAt(frame, 2 * AXALEN + AXALEN * (k - 1), h.path[k - 1]);
      FieldByte(frame, 2 * AXALEN + AXALEN * (k - 1), h.path[k - 1]);
    }
    if k < |h.path| {
      assert FieldAt(frame, 2 * AXALEN + AXALEN * k, h.path[k]);
      FieldByte(frame, 2 * AXALEN + AXALEN * k, h.path[k]);
    }
  }

  lemma {:induction false} DestWalkFinds(frame: seq<bv8>, h: Hdr, rest: seq<bv8>, k: nat)
    requires Layout(frame, h, rest) && k <= |h.path|
    ensures AXALEN * k + 2 * AXALEN <= |frame|
    ensures var f := FirstUnrepeated(h.path, k);
            DestWalk(frame, AXALEN + AXALEN * k, k) == if f < |h.path| then 2 * AXALEN + AXALEN * f else 0
    decreases |h.path| - k
  {
    hide Layout, EndsAt, RepeatedAt, Repeated;
    WalkPosition(frame, h, rest, k);
    if k < |h.path| { DestWalkFinds(frame, h, rest, k + 1); }
  }

  lemma {:induction false} SourceWalkFinds(frame: seq<bv8>, h: Hdr, rest: seq<bv8>, k: nat)
    requires Layout(frame, h, rest) && k <= |h.path|
    ensures AXALEN * k + 2 * AXALEN <= |frame|
    ensures var f := FirstUnrepeated(h.path, k);
            SourceWalk(frame, AXALEN + AXALEN * k, k, AXALEN + AXALEN * k) == AXALEN + AXALEN * f
    decreases |h.path| - k
  {
    hide Layout, EndsAt, RepeatedAt, Repeated;
    WalkPosition(frame, h, rest, k);
    if k < |h.path| { SourceWalkFinds(frame, h, rest, k + 1); }
  }

  /** On every frame ntohax25 accepts, both walkers name the stations ax_recv
      takes exactly when the REPEATED bits form a prefix of the path. */
  lemma WalkersAgreeIff(frame: seq<bv8>, ext: bv8, h: Hdr, rest: seq<bv8>)
    requires Decode(frame, ext) == Good(h, rest) && frame[1] & 1 == 0
    ensures RawDest(frame) == DestOffset(h) <==> Contiguous(h)
    ensures RecvSource(frame) == SourceOffset(h) <==> Contiguous(h)
  {
    hide Decode, DestWalk, SourceWalk, DecodeDigis;
    DecodedLayout(frame, ext, h, rest);
    DestWalkFinds(frame, h, rest, 0);
    SourceWalkFinds(frame, h, rest, 0);
    var f := FirstUnrepeated(h.path, 0);
    assert AfterLastRepeated(h.path, h.nextdigi);
    PrefixIff(h, f);
  }

  lemma PrefixIff(h: Hdr, f: nat)
    requires AfterLastRepeated(h.path, h.nextdigi) && f == FirstUnrepeated(h.path, 0)
    ensures f <= h.nextdigi
    ensures f == h.nextdigi <==> Contiguous(h)
  {
    assert h.nextdigi < |h.path| ==> !Repeated(h.path[h.nextdigi]);
  }

  /** The offsets of ax_recv hold the immediate destination and source. */
  lemma OffsetsHoldStations(frame: seq<bv8>, ext: bv8, h: Hdr, rest: seq<bv8>)
    requires Decode(frame, ext) == Good(h, rest) && frame[1] & 1 == 0
    ensures WellFormed(h)
    ensures FieldAt(frame, DestOffset(h), ImmediateDest(h))
    ensures FieldAt(frame, SourceOffset(h), ImmediateSource(h))
  {
    hide Decode;
    DecodedLayout(frame, ext, h, rest);
  }

  /** Frames that htonax25 made satisfy the condition. */
  lemma SentIsContiguous(h: Hdr)
    requires WellFormed(h)
    ensures Contiguous(Sent(h))
  {
    forall i | 0 <= i < |h.path| ensures Repeated(Sent(h).path[i]) <==> i < h.nextdigi {
      FieldBits(h.path[i], i == |h.path| - 1, i < h.nextdigi);
    }
  }

  /** A frame A>B via X,Y whose second digipeater is marked and whose first is
      not: axip_raw sends it to X, ax_recv takes it for B. */
  const GAPPED := Station(0x84, 0x60) + Station(0x82, 0x60) + (Station(0xb0, 0x60) + (Station(0xb2, 0xe1) + [0x03]))

  function Station(c: bv8, last: bv8): Address {
    [c, 0x40, 0x40, 0x40, 0x40, 0x40, last]
  }

  lemma GappedFrame()
    ensures RawDest(GAPPED) == 14
    ensures Decode(GAPPED, 0).Good? && DestOffset(Decode(GAPPED, 0).h) == 0
  {
    var dest, source, x, y := Station(0x84, 0x60), Station(0x82, 0x60), Station(0xb0, 0x60), Station(0xb2, 0xe1);
    assert GAPPED[..AXALEN] == dest && GAPPED[AXALEN..2 * AXALEN] == source;
    var bytes := GAPPED[2 * AXALEN..];
    assert bytes == x + (y + [0x03]);
    assert bytes[..AXALEN] == x && bytes[AXALEN..] == y + [0x03];
    assert (y + [0x03])[..AXALEN] == y;
    var g := Hdr(dest, source, [], 0, CmdRspOf(dest, source), -1, ExtOf(source));
    var g1 := g.(path := [x]);
    assert DecodeDigis(g, bytes) == DecodeDigis(g1, y + [0x03]);
    assert DecodeDigis(g1, y + [0x03]).h.path == [x, y];
  }

  // ----- ax25_frame_is_ui -----

  const UI: bv8 := 0x03
  const PF: bv8 := 0x10

  predicate UiByte(control: bv8) {
    control & !PF == UI
  }

  /** The offset of the address that ends the field, from address i at p on;
      -1 if the buffer ends before. */
  function EndOfAddresses(data: seq<bv8>, p: int, i: int): int
    requires 0 <= p
    decreases MAXDIGIS + 2 - i
  {
    if i >= MAXDIGIS + 2 then p
    else if p + AXALEN > |data| then FAILED
    else if EndsAt(data, p) then p
    else EndOfAddresses(data, p + AXALEN, i + 1)
  }

  function IsUiFrame(data: seq<bv8>): bool {
    |data| > 2 * AXALEN + 1
    && var ap := EndOfAddresses(data, 0, 0);
       ap != FAILED && ap + AXALEN + 1 <= |data| && ap >= 0 && UiByte(data[ap + AXALEN])
  }

  method FrameIsUi(data: seq<bv8>) returns (ui: bool)
    ensures ui == IsUiFrame(data)
  {
    if |data| <= 2 * AXALEN + 1 { return false; }
    var ap := 0;
    var i := 0;
    while i < MAXDIGIS + 2
      invariant 0 <= i <= MAXDIGIS + 2 && 0 <= ap
      invariant EndOfAddresses(data, 0, 0) == EndOfAddresses(data, ap, i)
    {
      if ap + AXALEN > |data| { return false; }
      if data[ap + ALEN] & E != 0 { break; }
      ap := ap + AXALEN;
      i := i + 1;
    }
    if ap + AXALEN + 1 > |data| { return false; }
    return data[ap + AXALEN] & !PF == UI;
  }

  lemma {:induction false} EndFound(frame: seq<bv8>, h: Hdr, rest: seq<bv8>, k: nat)
    requires Layout(frame, h, rest) && k <= |h.path|
    ensures EndOfAddresses(frame, AXALEN + AXALEN * k, k + 1) == AXALEN + AXALEN * |h.path|
    decreases |h.path| - k
  {
    hide Layout, EndsAt;
    WalkPosition(frame, h, rest, k);
    if k < |h.path| { EndFound(frame, h, rest, k + 1); }
  }

  /** What the raw test says of an accepted frame. It sees the control byte ax_recv
      sees, but says no to a frame without digipeaters that is nothing but its
      control byte. Where the destination ends the field, which the parser does not
      look at, it takes the first byte of the source for the control byte. */
  lemma UiTestAgrees(frame: seq<bv8>, ext: bv8, h: Hdr, rest: seq<bv8>)
    requires Decode(frame, ext) == Good(h, rest) && frame[1] & 1 == 0
    ensures IsUiFrame(frame) <==>
              if Ends(h.dest) then |frame| > 2 * AXALEN + 1 && UiByte(h.source[0])
              else rest != [] && UiByte(rest[0]) && !(h.path == [] && |rest| == 1)
  {
    hide Decode, EndOfAddresses;
    DecodedLayout(frame, ext, h, rest);
    FieldByte(frame, 0, h.dest);
    FromDest(frame);
    if Ends(h.dest) {
      SourceFirst(frame, h, rest);
    } else {
      EndFound(frame, h, rest, 0);
      if rest != [] { assert rest[0] == frame[2 * AXALEN + AXALEN * |h.path|]; }
    }
  }

  lemma SourceFirst(frame: seq<bv8>, h: Hdr, rest: seq<bv8>)
    requires Layout(frame, h, rest)
    ensures |frame| >= 2 * AXALEN && frame[AXALEN] == h.source[0]
  {
    hide PathAt;
    assert frame[AXALEN..2 * AXALEN][0] == frame[AXALEN];
  }

  /** The fifteen bytes A>B and UI, which ax_recv takes for a UI frame. */
  const BARE := Station(0x84, 0x60) + Station(0x82, 0x61) + [0x03]

  /** Sixteen bytes whose destination ends the field: the test takes the first
      letter of the source, 0x03, for the control byte. */
  const EARLY := Station(0x84, 0x61) + Station(0x03, 0x61) + [0x00, 0x00]

  lemma BareUiFrame()
    ensures Decode(BARE, 0).Good? && Decode(BARE, 0).rest == [0x03] && UiByte(0x03)
    ensures !IsUiFrame(BARE)
  {
    assert BARE[..AXALEN] == Station(0x84, 0x60) && BARE[AXALEN..2 * AXALEN] == Station(0x82, 0x61);
    assert BARE[2 * AXALEN..] == [0x03];
  }

  lemma EarlyEnd()
    ensures Decode(EARLY, 0).Good? && Decode(EARLY, 0).rest == [0x00, 0x00] && !UiByte(0x00)
    ensures IsUiFrame(EARLY)
  {
    assert EARLY[..AXALEN] == Station(0x84, 0x61) && EARLY[AXALEN..2 * AXALEN] == Station(0x03, 0x61);
    assert EARLY[2 * AXALEN..] == [0x00, 0x00];
    assert EndOfAddresses(EARLY, 0, 0) == 0;
  }

  lemma FromDest(frame: seq<bv8>)
    requires |frame| >= AXALEN
    ensures EndOfAddresses(frame, 0, 0) == if EndsAt(frame, 0) then 0 else EndOfAddresses(frame, AXALEN, 1)
  {
  }
}
