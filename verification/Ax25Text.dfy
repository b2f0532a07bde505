/** Callsigns as text (setcall and pax25 of src/ax25subr.c), and the fingerprint of
    a frame that lies in several buffers (src/ax25.c). */
module Ax25Text {
  import opened Ax25Address
  import opened Options

  /** The bytes of a C string before its NUL. */
  type Text = seq<bv8>

  const SPACE: bv8 := 0x20
  const DASH: bv8 := 0x2d
  const ASTERISK: bv8 := 0x2a

  predicate IsDigit(c: bv8) {
    0x30 <= c <= 0x39
  }

  predicate IsSpace(c: bv8) {
    c == 0x20 || 0x09 <= c <= 0x0d
  }

  function Upper(c: bv8): bv8 {
    if 0x61 <= c <= 0x7a then c - 0x20 else c
  }

  function Digits(acc: int, s: Text): int
    decreases |s|
  {
    if s != [] && IsDigit(s[0]) then Digits(10 * acc + (s[0] as int - 0x30), s[1..]) else acc
  }

  /** atoi */
  function Atoi(s: Text): int {
    if s == [] then 0
    else if IsSpace(s[0]) then Atoi(s[1..])
    else if s[0] == DASH then -Digits(0, s[1..])
    else if s[0] == 0x2b then Digits(0, s[1..])
    else Digits(0, s)
  }

  /** The index of the first dash, or the length. */
  function DashAt(s: Text): (i: nat)
    ensures i <= |s| && (forall j :: 0 <= j < i ==> s[j] != DASH) && (i < |s| ==> s[i] == DASH)
  {
    if s == [] || s[0] == DASH then 0 else 1 + DashAt(s[1..])
  }

  function Ssid(s: Text): int {
    if DashAt(s) < |s| then Atoi(s[DashAt(s) + 1..]) else 0
  }

  /** Whether setcall takes the text for a callsign. */
  predicate IsCall(s: Text) {
    s != [] && ASTERISK !in s && DashAt(s) <= ALEN && 0 <= Ssid(s) <= 15
  }

  /** The address setcall makes of it. */
  function CallOf(s: Text): (a: Address)
    requires IsCall(s)
  {
    seq(ALEN, i requires 0 <= i < ALEN => Byte(s, i)) + [LastByte(Ssid(s))]
  }

  /** A letter in its place, in upper case and shifted; blanks behind the call. */
  function Byte(s: Text, i: nat): bv8 {
    if i < DashAt(s) then Upper(s[i]) << 1 else SPACE << 1
  }

  function LastByte(ssid: int): bv8
    requires 0 <= ssid <= 15
  {
    0x60 | ((ssid as bv8) << 1)
  }

  /** setcall */
  method SetCall(call: Text) returns (out: Option<Address>)
    ensures out == if IsCall(call) then Some(CallOf(call)) else None
  {
    hide Upper, Atoi, LastByte, Byte, DashAt;
    if call == [] { return None; }
    if ASTERISK in call { return None; }
    var dp := FindDash(call);
    if dp > ALEN { return None; }
    var ssid := 0;
    if dp < |call| {
      ssid := Atoi(call[dp + 1..]);
      if ssid < 0 || ssid > 15 { return None; }
    }
    var bytes: seq<bv8> := [];
    for i := 0 to ALEN
      invariant |bytes| == i && forall k :: 0 <= k < i ==> bytes[k] == Byte(call, k)
    {
      ByteIs(call, i);
      bytes := bytes + [if i < dp then Upper(call[i]) << 1 else SPACE << 1];
    }
    bytes := bytes + [LastByte(ssid)];
    assert bytes == CallOf(call);
    out := Some(bytes);
  }

  lemma ByteIs(s: Text, i: nat)
    ensures Byte(s, i) == if i < DashAt(s) then Upper(s[i]) << 1 else SPACE << 1
  {
  }

  /** The search for the dash. */
  method FindDash(call: Text) returns (dp: nat)
    ensures dp == DashAt(call)
  {
    dp := 0;
    assert call[0..] == call;
    while dp < |call| && call[dp] != DASH
      invariant dp <= |call| && DashAt(call) == dp + DashAt(call[dp..])
    {
      assert call[dp..][1..] == call[dp + 1..];
      dp := dp + 1;
    }
  }

  /** The character of a byte of an address. */
  function Letter(b: bv8): bv8 {
    (b >> 1) & 0x7f
  }

  /** The letters that are not blanks. */
  function Letters(a: seq<bv8>): Text {
    if a == [] then [] else Letters(a[..|a| - 1]) + if Letter(a[|a| - 1]) != SPACE then [Letter(a[|a| - 1])] else []
  }

  function Decimal(n: int): Text
    requires 0 <= n < 100
  {
    if n < 10 then [(n + 0x30) as bv8] else [(n / 10 + 0x30) as bv8, (n % 10 + 0x30) as bv8]
  }

  function SsidOf(b: bv8): int {
    ((b >> 1) & 0x0f) as int
  }

  /** pax25 */
  method Pax25(addr: Address) returns (e: Text)
    ensures e == TextOf(addr)
  {
    hide Letter;
    e := [];
    for i := 0 to ALEN
      invariant e == Letters(addr[..i])
    {
      assert addr[..i + 1][..i] == addr[..i];
      var c := Letter(addr[i]);
      if c != SPACE { e := e + [c]; }
    }
    if addr[ALEN] & SSID != 0 {
      e := e + [DASH] + Decimal(SsidOf(addr[ALEN]));
    }
  }

  function TextOf(a: Address): Text {
    Letters(a[..ALEN]) + if a[ALEN] & SSID != 0 then [DASH] + Decimal(SsidOf(a[ALEN])) else []
  }

  /** An address as stations have it: k letters that setcall leaves as they are, blanks
      after them, and no bit set below the letters. */
  ghost predicate IsPlain(a: Address, k: nat) {
    && 1 <= k <= ALEN
    && (forall i :: 0 <= i < k ==> a[i] == Letter(a[i]) << 1 && PlainLetter(Letter(a[i])))
    && (forall i :: k <= i < ALEN ==> a[i] == SPACE << 1)
  }

  predicate PlainLetter(c: bv8) {
    c !in {0x20, 0x2a, 0x2d} && !(0x61 <= c <= 0x7a)
  }

  lemma {:induction false} LettersOf(a: Address, k: nat, n: nat)
    requires IsPlain(a, k) && n <= ALEN
    ensures var l := Letters(a[..n]);
            |l| == (if n < k then n else k) && forall i :: 0 <= i < |l| ==> l[i] == Letter(a[i])
    decreases n
  {
    hide PlainLetter;
    if n > 0 {
      assert a[..n][..n - 1] == a[..n - 1];
      LettersOf(a, k, n - 1);
      if n - 1 < k { NotBlank(Letter(a[n - 1])); } else { BlankLetter(a[n - 1]); }
    }
  }

  lemma NotBlank(c: bv8)
    requires PlainLetter(c)
    ensures c != SPACE && c != DASH && c != ASTERISK
  {
  }

  lemma BlankLetter(b: bv8)
    requires b == SPACE << 1
    ensures Letter(b) == SPACE
  {
  }

  lemma DecimalIsRead(n: int)
    requires 0 < n <= 15
    ensures Atoi(Decimal(n)) == n && ASTERISK !in Decimal(n) && DASH !in Decimal(n)
  {
    hide Atoi;
    if n < 10 { TwoDigits(0, n); } else { TwoDigits(n / 10, n % 10); }
  }

  lemma TwoDigits(a: int, b: int)
    requires 0 <= a <= 9 && 0 <= b <= 9
    ensures var d, e := (a + 0x30) as bv8, (b + 0x30) as bv8;
            Atoi([e]) == b && Atoi([d, e]) == 10 * a + b && d != ASTERISK && e != ASTERISK && d != DASH && e != DASH
  {
    var d, e := (a + 0x30) as bv8, (b + 0x30) as bv8;
    DigitIs(a);
    DigitIs(b);
    assert [e][1..] == [] && [d, e][1..] == [e];
    assert Digits(0, [e]) == Digits(b, []) == b;
    assert Digits(a, [e]) == Digits(10 * a + b, []);
    assert Digits(0, [d, e]) == Digits(a, [e]);
  }

  lemma DigitIs(a: int)
    requires 0 <= a <= 9
    ensures var d := (a + 0x30) as bv8;
            d as int == a + 0x30 && IsDigit(d) && !IsSpace(d) && d != ASTERISK && d != DASH && d != 0x2b
  {
    var n := a + 0x30;
    assert n == 0x30 || n == 0x31 || n == 0x32 || n == 0x33 || n == 0x34
           || n == 0x35 || n == 0x36 || n == 0x37 || n == 0x38 || n == 0x39;
  }

  lemma SsidBits(b: bv8)
    ensures b & SSID != 0 <==> SsidOf(b) != 0
    ensures 0 <= SsidOf(b) <= 15
    ensures LastByte(SsidOf(b)) == (b & SSID) | 0x60
  {
    SsidNibble(b, (b >> 1) & 0x0f);
  }

  lemma SsidNibble(b: bv8, n: bv8)
    requires n == (b >> 1) & 0x0f
    ensures (b & 0x1e != 0 <==> n != 0) && n <= 15 && 0x60 | (n << 1) == (b & 0x1e) | 0x60
  {
  }

  lemma DashAfter(s: Text, rest: Text)
    requires DASH !in s
    ensures DashAt(s + rest) == |s| + DashAt(rest)
  {
    if s == [] {
      assert s + rest == rest;
    } else {
      assert (s + rest)[1..] == s[1..] + rest;
      DashAfter(s[1..], rest);
    }
  }

  /** The text of a plain address is taken for a callsign, and it is the address's
      own but for the flag bits. */
  lemma TextComesBack(a: Address, k: nat)
    requires IsPlain(a, k)
    ensures IsCall(TextOf(a)) && CallOf(TextOf(a)) == AddrCopy(a)
  {
    hide Letter, Atoi, SsidOf, Letters, Decimal, PlainLetter;
    LettersOf(a, k, ALEN);
    var l, b := Letters(a[..ALEN]), a[ALEN];
    forall i | 0 <= i < |l| ensures l[i] != DASH && l[i] != ASTERISK && Upper(l[i]) == l[i] && a[i] == l[i] << 1 {
      PlainIs(l[i]);
    }
    SsidBits(b);
    var rest := if b & SSID != 0 then [DASH] + Decimal(SsidOf(b)) else [];
    DashAfter(l, rest);
    if b & SSID != 0 {
      DecimalIsRead(SsidOf(b));
      assert rest[0] == DASH && rest[1..] == Decimal(SsidOf(b));
      assert TextOf(a)[|l| + 1..] == Decimal(SsidOf(b));
    }
    assert TextOf(a) == l + rest;
    assert DashAt(TextOf(a)) == k && Ssid(TextOf(a)) == SsidOf(b);
    assert forall i :: 0 <= i < k ==> TextOf(a)[i] == l[i];
  }

  lemma PlainIs(c: bv8)
    requires PlainLetter(c)
    ensures c != DASH && c != ASTERISK && Upper(c) == c
  {
  }

  // ----- fingerprints -----

  const FNV_START: bv32 := 2166136261
  const FNV_PRIME: bv32 := 16777619
  const WORD := 0x1_0000_0000

  function MixIn(h: bv32, b: bv8): bv32 {
    (h ^ (b as bv32)) * FNV_PRIME
  }

  /** The hash of the first 64 bytes at most. */
  function HashOf(data: seq<bv8>): bv32
    requires |data| <= 64
  {
    if data == [] then FNV_START else MixIn(HashOf(data[..|data| - 1]), data[|data| - 1])
  }

  function Fingerprint(data: seq<bv8>): bv32 {
    HashOf(if |data| <= 64 then data else data[..64]) ^ ((|data| % WORD) as bv32)
  }

  /** ax_fingerprint_data */
  method FingerprintData(data: seq<bv8>) returns (h: bv32)
    ensures h == Fingerprint(data)
  {
    hide MixIn;
    h := FNV_START;
    var n := 0;
    while n < |data| && n < 64
      invariant 0 <= n <= |data| && n <= 64 && h == HashOf(data[..n])
    {
      assert data[..n + 1][..n] == data[..n];
      h := MixIn(h, data[n]);
      n := n + 1;
    }
    if |data| <= 64 { assert data[..n] == data; }
    h := h ^ ((|data| % WORD) as bv32);
  }

  function Joined(chain: seq<seq<bv8>>): seq<bv8> {
    if chain == [] then [] else chain[0] + Joined(chain[1..])
  }

  /** len_p */
  method LengthOf(chain: seq<seq<bv8>>) returns (len: int)
    ensures len == |Joined(chain)|
  {
    len := 0;
    assert chain[0..] == chain;
    for p := 0 to |chain|
      invariant |Joined(chain)| == len + |Joined(chain[p..])|
    {
      assert chain[p..][1..] == chain[p + 1..];
      len := len + |chain[p]|;
    }
  }

  /** ax_fingerprint: a chain of buffers has the fingerprint of the frame in it,
      wherever it is cut. */
  method FingerprintChain(chain: seq<seq<bv8>>) returns (h: bv32)
    ensures h == Fingerprint(Joined(chain))
  {
    hide MixIn, HashOf, Joined;
    ghost var all := Joined(chain);
    h := FNV_START;
    var n, p := 0, 0;
    NothingYet(all);
    assert chain[0..] == chain && all[0..] == all;
    while p < |chain| && n < 64
      invariant 0 <= n <= |all| && n <= 64 && p <= |chain| && h == HashOf(all[..n])
      invariant n < 64 ==> all[n..] == Joined(chain[p..])
      decreases |chain| - p
    {
      NextBuffer(all, chain, p, n);
      ghost var rest := Joined(chain[p + 1..]);
      var i := 0;
      while i < |chain[p]| && n < 64
        invariant 0 <= i <= |chain[p]| && n <= |all| && n <= 64 && h == HashOf(all[..n])
        invariant all[n..] == chain[p][i..] + rest
      {
        OneByteOn(all, n);
        h := MixIn(h, chain[p][i]);
        i, n := i + 1, n + 1;
      }
      p := p + 1;
    }
    if n < 64 { AllRead(all, chain, n); }
    assert all[..n] == if |all| <= 64 then all else all[..64];
    var len := LengthOf(chain);
    h := h ^ ((len % WORD) as bv32);
  }

  lemma NothingYet(all: seq<bv8>)
    ensures HashOf(all[..0]) == FNV_START
  {
  }

  lemma OneByteOn(all: seq<bv8>, n: nat)
    requires n < |all| && n < 64
    ensures HashOf(all[..n + 1]) == MixIn(HashOf(all[..n]), all[n])
  {
    hide MixIn;
    assert all[..n + 1][..n] == all[..n];
  }

  lemma NextBuffer(all: seq<bv8>, chain: seq<seq<bv8>>, p: nat, n: nat)
    requires n <= |all| && p < |chain| && all[n..] == Joined(chain[p..])
    ensures all[n..] == chain[p][0..] + Joined(chain[p + 1..])
  {
    assert chain[p..][1..] == chain[p + 1..];
  }

  lemma AllRead(all: seq<bv8>, chain: seq<seq<bv8>>, n: nat)
    requires n <= |all| && all[n..] == Joined(chain[|chain|..])
    ensures n == |all|
  {
    assert chain[|chain|..] == [];
  }

  /** The text of a plain address: its letters without the blanks behind them, and an SSID
      that is not 0 in decimal after a dash. */
  lemma TextIs(a: Address, k: nat)
    requires IsPlain(a, k)
    ensures TextOf(a) == Letters(a[..ALEN]) + SsidText(((a[6] >> 1) & 0x0f) as int)
    ensures |Letters(a[..ALEN])| == k && forall i :: 0 <= i < k ==> Letters(a[..ALEN])[i] == a[i] >> 1
  {
    hide PlainLetter, Letters, Letter;
    LettersOf(a, k, ALEN);
    SsidBits(a[6]);
    SsidTextIs(SsidOf(a[6]));
    forall i | 0 <= i < k ensures Letter(a[i]) == a[i] >> 1 { Shifted(a[i]); }
  }

  lemma Shifted(b: bv8)
    ensures Letter(b) == b >> 1
  {
  }

  function SsidText(ssid: int): Text
    requires 0 <= ssid < 16
  {
    if ssid == 0 then []
    else if ssid < 10 then [0x2d, (0x30 + ssid) as bv8]
    else [0x2d, 0x31, (0x30 + ssid - 10) as bv8]
  }

  lemma SsidTextIs(ssid: int)
    requires 0 <= ssid < 16
    ensures SsidText(ssid) == if ssid == 0 then [] else [DASH] + Decimal(ssid)
  {
    if ssid >= 10 { assert ssid / 10 == 1 && ssid % 10 == ssid - 10; }
  }

  /** What is no callsign: nothing, what has a star in it, what has more than six letters,
      and what has an SSID that is not from 0 to 15. */
  lemma RefusedIff(s: Text)
    ensures !IsCall(s) <==>
              || s == [] || 0x2a in s
              || (|s| >= 7 && forall i :: 0 <= i < 7 ==> s[i] != 0x2d)
              || !(0 <= Ssid(s) <= 15)
  {
    hide Ssid;
  }

  /** The SSID is read like atoi reads it: blanks before it do not matter, a sign counts,
      and what follows the digits is ignored. */
  lemma NumbersAreRead(s: Text, c: bv8)
    ensures Atoi([]) == 0
    ensures c == 0x20 || 0x09 <= c <= 0x0d ==> Atoi([c] + s) == Atoi(s)
    ensures Atoi([0x2d] + s) == -Digits(0, s) && Atoi([0x2b] + s) == Digits(0, s)
    ensures c != 0x20 && !(0x09 <= c <= 0x0d) && c != 0x2d && c != 0x2b ==> Atoi([c] + s) == Digits(0, [c] + s)
  {
    hide Digits, IsDigit;
    assert ([c] + s)[1..] == s && ([0x2d] + s)[1..] == s && ([0x2b] + s)[1..] == s;
  }

  lemma DigitsAreRead(n: int, c: bv8, s: Text)
    ensures Digits(n, []) == n
    ensures Digits(n, [c] + s) == if 0x30 <= c <= 0x39 then Digits(10 * n + (c as int - 0x30), s) else n
  {
    assert ([c] + s)[1..] == s;
  }

  const SMALL: Text := [0x64, 0x62, 0x30, 0x61, 0x61, 0x61, 0x2d, 0x31, 0x32]

  /** "db0aaa-12" and the address it names. */
  lemma KnownCall()
    ensures IsCall(SMALL) && CallOf(SMALL) == [0x88, 0x84, 0x60, 0x82, 0x82, 0x82, 0x78]
  {
    hide Atoi, LastByte, Byte;
    KnownDash();
    TwelveIsRead();
    assert SMALL[7..] == [0x31, 0x32];
    assert Ssid(SMALL) == 12;
    KnownBytes();
  }

  lemma KnownDash()
    ensures DashAt(SMALL) == 6 && ASTERISK !in SMALL
  {
    assert SMALL == [0x64, 0x62, 0x30, 0x61, 0x61, 0x61] + [0x2d, 0x31, 0x32];
    DashAfter([0x64, 0x62, 0x30, 0x61, 0x61, 0x61], [0x2d, 0x31, 0x32]);
    assert DashAt([0x2d, 0x31, 0x32]) == 0;
  }

  lemma KnownBytes()
    requires DashAt(SMALL) == 6
    ensures LastByte(12) == 0x78 && Byte(SMALL, 0) == 0x88 && Byte(SMALL, 1) == 0x84 && Byte(SMALL, 2) == 0x60
    ensures Byte(SMALL, 3) == Byte(SMALL, 4) == Byte(SMALL, 5) == 0x82
  {
    hide DashAt;
    TwelveShifted();
  }

  lemma TwelveIsRead()
    ensures Atoi([0x31, 0x32]) == 12
  {
    TwoDigits(1, 2);
  }

  lemma TwelveShifted()
    ensures LastByte(12) == 0x78 && Upper(0x64) << 1 == 0x88 && Upper(0x62) << 1 == 0x84
    ensures Upper(0x30) << 1 == 0x60 && Upper(0x61) << 1 == 0x82
  {
  }

  /** The same text but for the case of letters. */
  ghost predicate SameButCase(s: Text, t: Text) {
    |s| == |t| && forall i :: 0 <= i < |s| ==> t[i] == s[i] || (0x61 <= s[i] <= 0x7a && t[i] == s[i] - 0x20)
  }

  /** A callsign may be written in small letters. */
  lemma CaseDoesNotMatter(s: Text, t: Text)
    requires SameButCase(s, t)
    ensures IsCall(s) <==> IsCall(t)
    ensures IsCall(s) ==> CallOf(s) == CallOf(t)
  {
    hide Atoi, Upper;
    SameDash(s, t);
    var d := DashAt(s);
    if d < |s| { SameNumber(s[d + 1..], t[d + 1..]); }
    forall i | 0 <= i < |s| ensures (s[i] == ASTERISK <==> t[i] == ASTERISK) && Upper(s[i]) == Upper(t[i]) {
      OneLetter(s[i], t[i]);
    }
  }

  lemma OneLetter(c: bv8, d: bv8)
    requires d == c || (0x61 <= c <= 0x7a && d == c - 0x20)
    ensures Upper(c) == Upper(d) && (c == ASTERISK <==> d == ASTERISK) && (c == DASH <==> d == DASH)
    ensures (IsDigit(c) <==> IsDigit(d)) && (IsSpace(c) <==> IsSpace(d)) && (c == 0x2b <==> d == 0x2b)
    ensures IsDigit(c) || IsSpace(c) || c == DASH || c == 0x2b ==> c == d
  {
  }

  lemma SameDash(s: Text, t: Text)
    requires SameButCase(s, t)
    ensures DashAt(s) == DashAt(t)
  {
    hide Upper;
    if s != [] {
      OneLetter(s[0], t[0]);
      if s[0] != DASH { SameDash(s[1..], t[1..]); }
    }
  }

  lemma SameNumber(s: Text, t: Text)
    requires SameButCase(s, t)
    ensures Atoi(s) == Atoi(t)
    decreases |s|
  {
    hide Digits, IsDigit, IsSpace, Upper;
    if s != [] {
      OneLetter(s[0], t[0]);
      if IsSpace(s[0]) { SameNumber(s[1..], t[1..]); }
      SameDigits(0, s, t);
      SameDigits(0, s[1..], t[1..]);
    }
  }

  lemma {:induction false} SameDigits(acc: int, s: Text, t: Text)
    requires SameButCase(s, t)
    ensures Digits(acc, s) == Digits(acc, t)
    decreases |s|
  {
    if s != [] {
      OneLetter(s[0], t[0]);
      if IsDigit(s[0]) { SameDigits(10 * acc + (s[0] as int - 0x30), s[1..], t[1..]); }
    }
  }

  /** The hash is FNV-1a: its published values for "a" and for "foobar", with the length
      mixed in. */
  lemma KnownFingerprints()
    ensures Fingerprint([]) == 0x811c9dc5
    ensures Fingerprint([0x61]) == 0xe40c292c ^ 1
    ensures Fingerprint([0x66, 0x6f, 0x6f, 0x62, 0x61, 0x72]) == 0xbf9cf968 ^ 6
  {
    hide MixIn, HashOf;
    var f: seq<bv8> := [0x66, 0x6f, 0x6f, 0x62, 0x61, 0x72];
    NothingYet([]);
    var none: seq<bv8> := [];
    assert none[..0] == none;
    FooBarMixed();
    NothingYet([0x61]);
    OneByteOn([0x61], 0);
    assert [0x61 as bv8][..1] == [0x61];
    FooBarHashed(f);
  }

  lemma FooBarHashed(f: seq<bv8>)
    requires f == [0x66, 0x6f, 0x6f, 0x62, 0x61, 0x72]
    ensures HashOf(f) == 0xbf9cf968
  {
    hide MixIn, HashOf;
    FooBarMixed();
    NothingYet(f);
    OneByteOn(f, 0);
    OneByteOn(f, 1);
    OneByteOn(f, 2);
    OneByteOn(f, 3);
    OneByteOn(f, 4);
    OneByteOn(f, 5);
    assert f[..6] == f;
  }

  lemma FooBarMixed()
    ensures MixIn(0x811c9dc5, 0x61) == 0xe40c292c
    ensures MixIn(0x811c9dc5, 0x66) == 0xe30c2799 && MixIn(0xe30c2799, 0x6f) == 0x6222e842
    ensures MixIn(0x6222e842, 0x6f) == 0xa9f37ed7 && MixIn(0xa9f37ed7, 0x62) == 0x3f5076ef
    ensures MixIn(0x3f5076ef, 0x61) == 0x39aaa18a && MixIn(0x39aaa18a, 0x72) == 0xbf9cf968
  {
  }

  /** Two frames of one length that begin with the same 64 bytes cannot be told apart. */
  lemma OnlyTheBeginning(data: seq<bv8>, data': seq<bv8>)
    requires |data| == |data'| && (|data| <= 64 ==> data == data') && (|data| > 64 ==> data[..64] == data'[..64])
    ensures Fingerprint(data) == Fingerprint(data')
  {
  }
}
