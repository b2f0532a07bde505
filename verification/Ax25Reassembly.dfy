/** Segmented datagrams: the segmenter of src/lapb.c and the reassembly of UI
    frames in src/ax25.c, one per (destination, source) pair. */
module Ax25Reassembly {
  import opened Ax25Address

  const SEG_FIRST: bv8 := 0x80
  const SEG_REM: bv8 := 0x7f
  const PID_SEGMENT: bv8 := 0x08

  datatype Pair = Pair(dest: Address, source: Address)

  predicate SamePair(p: Pair, q: Pair) {
    AddrEq(p.dest, q.dest) && AddrEq(p.source, q.source)
  }

  /** struct axreasm */
  datatype Entry = Entry(pair: Pair, segremain: int, rxasm: seq<bv8>)

  /** What happens to a reassembler: a segment comes in (memory says whether an
      entry can be allocated for it), or the timer of a pair's entry runs out. */
  datatype Event =
    | Segment(pair: Pair, bytes: seq<bv8>, memory: bool)
    | Timeout(pair: Pair)

  datatype Datagram = Nothing | Datagram(pid: bv8, data: seq<bv8>)

  // ----- one pair -----

  datatype Slot = Idle | Joining(remain: int, data: seq<bv8>)

  function Remain(b: bv8): (r: int)
    ensures 0 <= r < 128
  {
    (b & SEG_REM) as int
  }

  /** What a segment makes of its pair, before a complete datagram is taken off. */
  function Joined(s: Slot, bytes: seq<bv8>, memory: bool): Slot
    requires bytes != []
  {
    if bytes[0] & SEG_FIRST != 0 then
      if memory then Joining(Remain(bytes[0]), bytes[1..]) else Idle
    else if s.Idle? || Remain(bytes[0]) != s.remain - 1 then Idle
    else Joining(Remain(bytes[0]), s.data + bytes[1..])
  }

  function Next(s: Slot, e: Event): Slot {
    match e
    case Timeout(_) => Idle
    case Segment(_, bytes, memory) =>
      if bytes == [] then s
      else var j := Joined(s, bytes, memory); if j.Joining? && j.remain == 0 then Idle else j
  }

  function Output(s: Slot, e: Event): Datagram {
    if e.Timeout? || e.bytes == [] then Nothing
    else
      var j := Joined(s, e.bytes, e.memory);
      if j.Joining? && j.remain == 0 && j.data != [] then Datagram(j.data[0], j.data[1..]) else Nothing
  }

  /** The pair's reassembly after a run in which all pairs are mixed. */
  function After(events: seq<Event>, p: Pair): Slot {
    if events == [] then Idle
    else
      var e := events[|events| - 1];
      var s := After(events[..|events| - 1], p);
      if SamePair(e.pair, p) then Next(s, e) else s
  }

  // ----- the queue -----

  function Find(queue: seq<Entry>, p: Pair): (i: nat)
    ensures i <= |queue|
    ensures forall j :: 0 <= j < i ==> !SamePair(queue[j].pair, p)
    ensures i < |queue| ==> SamePair(queue[i].pair, p)
  {
    if queue == [] || SamePair(queue[0].pair, p) then 0 else 1 + Find(queue[1..], p)
  }

  function SlotOf(queue: seq<Entry>, p: Pair): Slot {
    var i := Find(queue, p);
    if i < |queue| then Joining(queue[i].segremain, queue[i].rxasm) else Idle
  }

  ghost predicate OnePerPair(queue: seq<Entry>) {
    forall i, j :: 0 <= i < j < |queue| ==> !SamePair(queue[i].pair, queue[j].pair)
  }

  lemma SamePairSymmetric(p: Pair, q: Pair)
    ensures SamePair(p, q) <==> SamePair(q, p)
  {
  }

  lemma SamePairReflexive(p: Pair)
    ensures SamePair(p, p)
  {
  }

  lemma SamePairTransitive(p: Pair, q: Pair, r: Pair)
    requires SamePair(p, q) && SamePair(q, r)
    ensures SamePair(p, r)
  {
  }

  lemma FoundAt(queue: seq<Entry>, i: nat, p: Pair)
    requires OnePerPair(queue) && i < |queue| && SamePair(queue[i].pair, p)
    ensures Find(queue, p) == i
  {
    hide SamePair;
    var k := Find(queue, p);
    if k < i {
      SamePairSymmetric(queue[i].pair, p);
      SamePairTransitive(queue[k].pair, p, queue[i].pair);
    }
  }

  lemma NotFound(queue: seq<Entry>, p: Pair)
    requires forall i :: 0 <= i < |queue| ==> !SamePair(queue[i].pair, p)
    ensures Find(queue, p) == |queue|
  {
  }

  lemma AfterRemoval(queue: seq<Entry>, i: nat)
    requires OnePerPair(queue) && i < |queue|
    ensures OnePerPair(queue[..i] + queue[i + 1..])
    ensures forall p :: SlotOf(queue[..i] + queue[i + 1..], p) ==
              if SamePair(queue[i].pair, p) then Idle else SlotOf(queue, p)
  {
    hide SamePair;
    var q := queue[..i] + queue[i + 1..];
    forall p ensures SlotOf(q, p) == if SamePair(queue[i].pair, p) then Idle else SlotOf(queue, p) {
      RemovalFor(queue, i, p);
    }
  }

  lemma RemovalFor(queue: seq<Entry>, i: nat, p: Pair)
    requires OnePerPair(queue) && i < |queue|
    ensures SlotOf(queue[..i] + queue[i + 1..], p) == if SamePair(queue[i].pair, p) then Idle else SlotOf(queue, p)
  {
    hide SamePair;
    var q := queue[..i] + queue[i + 1..];
    var k := Find(q, p);
    if k < |q| {
      var o := if k < i then k else k + 1;
      FoundAt(queue, o, p);
      if SamePair(queue[i].pair, p) { FoundAt(queue, i, p); }
    } else if !SamePair(queue[i].pair, p) {
      forall j | 0 <= j < |queue| ensures !SamePair(queue[j].pair, p) {
        if j < i { assert q[j] == queue[j]; } else if j > i { assert q[j - 1] == queue[j]; }
      }
      NotFound(queue, p);
    }
  }

  lemma AfterPush(queue: seq<Entry>, e: Entry)
    requires OnePerPair(queue) && SlotOf(queue, e.pair).Idle?
    ensures OnePerPair([e] + queue)
    ensures forall p :: SlotOf([e] + queue, p) ==
              if SamePair(e.pair, p) then Joining(e.segremain, e.rxasm) else SlotOf(queue, p)
  {
    hide SamePair;
    forall j | 0 <= j < |queue| ensures !SamePair(e.pair, queue[j].pair) {
      SamePairSymmetric(e.pair, queue[j].pair);
    }
    forall p
      ensures SlotOf([e] + queue, p) == if SamePair(e.pair, p) then Joining(e.segremain, e.rxasm) else SlotOf(queue, p)
    {
      assert ([e] + queue)[1..] == queue;
    }
  }

  lemma AfterUpdate(queue: seq<Entry>, i: nat, e: Entry)
    requires OnePerPair(queue) && i < |queue| && e.pair == queue[i].pair
    ensures OnePerPair(queue[i := e])
    ensures forall p :: SlotOf(queue[i := e], p) ==
              if SamePair(e.pair, p) then Joining(e.segremain, e.rxasm) else SlotOf(queue, p)
  {
    hide SamePair;
    var q := queue[i := e];
    forall p ensures SlotOf(q, p) == if SamePair(e.pair, p) then Joining(e.segremain, e.rxasm) else SlotOf(queue, p) {
      var k := Find(queue, p);
      if k < |queue| { FoundAt(q, k, p); } else { NotFound(q, p); }
      if SamePair(e.pair, p) { FoundAt(queue, i, p); }
    }
  }

  lemma SlotOfSame(queue: seq<Entry>, p: Pair, q: Pair)
    requires SamePair(p, q)
    ensures SlotOf(queue, p) == SlotOf(queue, q)
  {
    hide SamePair;
    var k, l := Find(queue, p), Find(queue, q);
    if k < |queue| { SamePairTransitive(queue[k].pair, p, q); }
    if l < |queue| { SamePairSymmetric(p, q); SamePairTransitive(queue[l].pair, q, p); }
  }

  /** Axreasmq and its timers; history is what has happened to it. */
  class Reassembler {
    var queue: seq<Entry>
    ghost var history: seq<Event>

    ghost predicate Valid()
      reads this
    {
      OnePerPair(queue) && forall p :: SlotOf(queue, p) == After(history, p)
    }

    constructor ()
      ensures Valid() && history == []
    {
      queue := [];
      history := [];
    }

    /** axreasm_free */
    method Free(i: nat)
      requires i < |queue| && OnePerPair(queue)
      modifies this`queue
      ensures queue == old(queue[..i] + queue[i + 1..]) && OnePerPair(queue)
      ensures forall p :: SlotOf(queue, p) == if SamePair(old(queue)[i].pair, p) then Idle else SlotOf(old(queue), p)
    {
      AfterRemoval(queue, i);
      queue := queue[..i] + queue[i + 1..];
    }

    /** axreasm_timeout: the timer of the entry for the pair runs out, if there is one. */
    method TimerExpires(pair: Pair)
      requires Valid()
      modifies this
      ensures Valid() && history == old(history) + [Timeout(pair)]
    {
      hide SamePair, OnePerPair;
      ghost var before := queue;
      var i := Find(queue, pair);
      if i < |queue| { Free(i); }
      history := history + [Timeout(pair)];
      forall p ensures SlotOf(queue, p) == After(history, p) {
        assert history[..|history| - 1] == old(history);
        SlotOfPair(before, pair, p);
        if i < |before| { EitherWay(before[i].pair, pair, p); }
      }
    }

    /** ax25_ui_reasm: what is handed on once the pair's last segment is in. */
    method UiReasm(pair: Pair, bytes: seq<bv8>, memory: bool) returns (out: Datagram)
      requires Valid()
      modifies this
      ensures Valid() && history == old(history) + [Segment(pair, bytes, memory)]
      ensures out == Output(After(old(history), pair), Segment(pair, bytes, memory))
    {
      hide SamePair, OnePerPair, Remain, Next, Output;
      ghost var e := Segment(pair, bytes, memory);
      out := Accept(pair, bytes, memory);
      history := history + [e];
      forall p ensures SlotOf(queue, p) == After(history, p) {
        assert history[..|history| - 1] == old(history);
      }
    }

    method Accept(pair: Pair, bytes: seq<bv8>, memory: bool) returns (out: Datagram)
      requires OnePerPair(queue)
      modifies this`queue
      ensures OnePerPair(queue)
      ensures out == Output(SlotOf(old(queue), pair), Segment(pair, bytes, memory))
      ensures forall p :: SlotOf(queue, p) == if SamePair(pair, p)
                then Next(SlotOf(old(queue), p), Segment(pair, bytes, memory)) else SlotOf(old(queue), p)
    {
      hide SamePair, OnePerPair, Remain;
      if bytes == [] { return Nothing; }
      ghost var s := SlotOf(queue, pair);
      ghost var e := Segment(pair, bytes, memory);
      var seqno, rest := bytes[0], bytes[1..];
      ghost var q0 := queue;
      var i := Find(queue, pair);
      if seqno & SEG_FIRST != 0 {
        if i < |queue| { EitherWayAll(queue[i].pair, pair); Free(i); }
        if !memory {
          SlotOfSameAll(q0, pair);
          return Nothing;
        }
        SamePairReflexive(pair);
        AfterPush(queue, Entry(pair, Remain(seqno), rest));
        queue := [Entry(pair, Remain(seqno), rest)] + queue;
        i := 0;
      } else {
        if i == |queue| || Remain(seqno) != queue[i].segremain - 1 {
          if i < |queue| { EitherWayAll(queue[i].pair, pair); Free(i); }
          SlotOfSameAll(q0, pair);
          return Nothing;
        }
        var e := queue[i].(segremain := Remain(seqno), rxasm := queue[i].rxasm + rest);
        AfterUpdate(queue, i, e);
        EitherWayAll(queue[i].pair, pair);
        queue := queue[i := e];
      }
      SlotOfSameAll(q0, pair);
      if queue[i].segremain != 0 { return Nothing; }
      var bp := queue[i].rxasm;
      EitherWayAll(queue[i].pair, pair);
      Free(i);
      if bp == [] { return Nothing; }
      return Datagram(bp[0], bp[1..]);
    }
  }

  lemma EitherWay(a: Pair, b: Pair, p: Pair)
    requires SamePair(a, b)
    ensures SamePair(a, p) <==> SamePair(b, p)
  {
  }

  lemma EitherWayAll(a: Pair, b: Pair)
    requires SamePair(a, b)
    ensures forall p :: SamePair(a, p) <==> SamePair(b, p)
  {
    hide SamePair;
    forall p ensures SamePair(a, p) <==> SamePair(b, p) { EitherWay(a, b, p); }
  }

  lemma SlotOfPair(queue: seq<Entry>, p: Pair, q: Pair)
    ensures SamePair(p, q) ==> SlotOf(queue, p) == SlotOf(queue, q)
  {
    if SamePair(p, q) { SlotOfSame(queue, p, q); }
  }

  lemma SlotOfSameAll(queue: seq<Entry>, p: Pair)
    ensures forall q :: SamePair(p, q) ==> SlotOf(queue, q) == SlotOf(queue, p)
  {
    hide SamePair;
    forall q | SamePair(p, q) ensures SlotOf(queue, q) == SlotOf(queue, p) { SlotOfSame(queue, p, q); }
  }

  // ----- what is handed on -----

  /** The segments and timeouts that concern a pair, in the order of arrival. A
      frame without a counter concerns no one. */
  function Projection(events: seq<Event>, p: Pair): seq<Event> {
    if events == [] then []
    else
      var e := events[|events| - 1];
      var before := Projection(events[..|events| - 1], p);
      if SamePair(e.pair, p) && (e.Segment? ==> e.bytes != []) then before + [e] else before
  }

  /** What happens to other pairs makes no difference. */
  lemma {:induction false} OtherPairsDoNotMatter(events: seq<Event>, p: Pair)
    ensures After(events, p) == After(Projection(events, p), p)
    ensures forall e :: e in Projection(events, p) ==> SamePair(e.pair, p) && (e.Segment? ==> e.bytes != [])
  {
    hide SamePair, Next;
    if events != [] {
      var e := events[|events| - 1];
      var before := events[..|events| - 1];
      OtherPairsDoNotMatter(before, p);
      var q := Projection(events, p);
      if SamePair(e.pair, p) && (e.Segment? ==> e.bytes != []) {
        assert q[..|q| - 1] == Projection(before, p);
      } else if SamePair(e.pair, p) {
        NoCounter(After(before, p), e);
      }
    }
  }

  lemma NoCounter(s: Slot, e: Event)
    requires e.Segment? && e.bytes == []
    ensures Next(s, e) == s && Output(s, e) == Nothing
  {
  }

  predicate Counts(e: Event, first: bool, remain: int) {
    && e.Segment? && e.bytes != []
    && (e.bytes[0] & SEG_FIRST != 0 <==> first) && (first ==> e.memory)
    && Remain(e.bytes[0]) == remain
  }

  /** The first |stream| segments of a sequence that n more follow its first one:
      the first counts n, and every later one counts one less. */
  ghost predicate InOrder(stream: seq<Event>, n: int) {
    && 1 <= |stream| <= n + 1
    && forall i :: 0 <= i < |stream| ==> Counts(stream[i], i == 0, n - i)
  }

  function Content(stream: seq<Event>): seq<bv8> {
    if stream == [] then []
    else
      var e := stream[|stream| - 1];
      Content(stream[..|stream| - 1]) + if e.Segment? && e.bytes != [] then e.bytes[1..] else []
  }

  ghost predicate Concern(events: seq<Event>, p: Pair) {
    forall i :: 0 <= i < |events| ==> SamePair(events[i].pair, p) && (events[i].Segment? ==> events[i].bytes != [])
  }

  /** The last k of the events are the begin of a sequence of which n follow the first. */
  ghost predicate TailInOrder(events: seq<Event>, k: nat, n: int) {
    k <= |events| && InOrder(events[|events| - k..], n)
  }

  /** A reassembly is under way only when the pair's last events are an
      unfinished sequence in order, and it holds their content. */
  lemma {:induction false} JoiningMeansInOrder(events: seq<Event>, p: Pair) returns (k: nat, n: int)
    requires Concern(events, p) && After(events, p).Joining?
    ensures TailInOrder(events, k, n) && k <= n
    ensures After(events, p) == Joining(n - k + 1, Content(events[|events| - k..]))
  {
    hide SamePair, Remain, InOrder, Content;
    var e := events[|events| - 1];
    var before := events[..|events| - 1];
    assert events == before + [e];
    if e.bytes[0] & SEG_FIRST != 0 {
      k, n := 1, Remain(e.bytes[0]);
      assert events[|events| - 1..] == [e];
      SingleContent(e);
      SingleInOrder(e, n);
    } else {
      k, n := JoiningMeansInOrder(before, p);
      ExtendTail(before, e, k, n);
      k := k + 1;
    }
  }

  lemma SingleInOrder(e: Event, n: int)
    requires Counts(e, true, n)
    ensures InOrder([e], n)
  {
  }

  lemma ExtendTail(before: seq<Event>, e: Event, k: nat, n: int)
    requires TailInOrder(before, k, n) && k <= n && Counts(e, false, n - k)
    ensures var events := before + [e];
            && TailInOrder(events, k + 1, n)
            && Content(events[|events| - (k + 1)..]) == Content(before[|before| - k..]) + e.bytes[1..]
            && before + [e] == events
  {
    hide Remain;
    var events := before + [e];
    var stream := before[|before| - k..];
    assert events[|events| - (k + 1)..] == stream + [e];
    assert (stream + [e])[..|stream|] == stream;
  }

  lemma {:induction false} InOrderIsJoining(events: seq<Event>, p: Pair, k: nat, n: int)
    requires Concern(events, p) && TailInOrder(events, k, n) && k <= n
    ensures After(events, p) == Joining(n - k + 1, Content(events[|events| - k..]))
    decreases k
  {
    hide SamePair, Remain, After, Next;
    var e := events[|events| - 1];
    var before := events[..|events| - 1];
    var stream := events[|events| - k..];
    AfterLast(events, p);
    assert Counts(stream[k - 1], k == 1, n - (k - 1)) && stream[k - 1] == e;
    Counted(After(before, p), e, k == 1, n - (k - 1));
    if k > 1 {
      assert stream[..k - 1] == before[|before| - (k - 1)..];
      InOrderIsJoining(before, p, k - 1, n);
    } else {
      assert stream == [e] && [e][..0] == [];
    }
  }

  lemma AfterLast(events: seq<Event>, p: Pair)
    requires Concern(events, p) && events != []
    ensures After(events, p) == Next(After(events[..|events| - 1], p), events[|events| - 1])
  {
    hide SamePair, Next;
  }

  /** A segment in its place, with more to come. */
  lemma Counted(s: Slot, e: Event, first: bool, r: int)
    requires Counts(e, first, r) && r > 0
    ensures first ==> Next(s, e) == Joining(r, e.bytes[1..])
    ensures !first && s.Joining? && s.remain == r + 1 ==> Next(s, e) == Joining(r, s.data + e.bytes[1..])
  {
    hide Remain;
  }

  /** The last k events are a whole sequence that carries the datagram d. */
  ghost predicate Completes(events: seq<Event>, k: nat, d: Datagram) {
    && 1 <= k <= |events| && InOrder(events[|events| - k..], k - 1)
    && d.Datagram? && Content(events[|events| - k..]) == [d.pid] + d.data
  }

  /** A datagram is handed on exactly when the pair's last segments are a whole
      sequence in order, whatever came in between for other pairs, and it is
      the content of that sequence. */
  lemma DeliveredIff(events: seq<Event>, e: Event, d: Datagram)
    requires d.Datagram? && e.Segment?
    ensures Output(After(events, e.pair), e) == d
            <==> e.bytes != [] && exists k :: Completes(Projection(events, e.pair) + [e], k, d)
  {
    hide SamePair, Remain, Completes, Output;
    var q := Projection(events, e.pair);
    OtherPairsDoNotMatter(events, e.pair);
    SamePairReflexive(e.pair);
    if e.bytes == [] {
      NoCounter(After(events, e.pair), e);
    } else {
      if Output(After(events, e.pair), e) == d {
        var k := DeliveredIsComplete(q, e, d);
      }
      if exists k :: Completes(q + [e], k, d) {
        var k :| Completes(q + [e], k, d);
        CompleteIsDelivered(q, e, k, d);
      }
    }
  }

  lemma DeliveredIsComplete(q: seq<Event>, e: Event, d: Datagram) returns (k: nat)
    requires Concern(q, e.pair) && e.Segment? && e.bytes != []
    requires d.Datagram? && Output(After(q, e.pair), e) == d
    ensures Completes(q + [e], k, d)
  {
    hide SamePair, Remain, After, Content, Concern;
    var all := q + [e];
    if e.bytes[0] & SEG_FIRST != 0 {
      k := 1;
      assert all[|all| - 1..] == [e];
      SingleContent(e);
    } else {
      var n;
      k, n := JoiningMeansInOrder(q, e.pair);
      ExtendTail(q, e, k, n);
      k := k + 1;
    }
  }

  lemma SingleContent(e: Event)
    requires e.Segment? && e.bytes != []
    ensures Content([e]) == e.bytes[1..]
  {
    assert [e][..0] == [];
  }

  lemma ContentOfLonger(stream: seq<Event>, e: Event)
    requires e.Segment? && e.bytes != []
    ensures Content(stream + [e]) == Content(stream) + e.bytes[1..]
  {
    assert (stream + [e])[..|stream|] == stream;
  }

  lemma CompleteIsDelivered(q: seq<Event>, e: Event, k: nat, d: Datagram)
    requires Concern(q, e.pair) && Completes(q + [e], k, d) && e.Segment? && e.bytes != []
    ensures Output(After(q, e.pair), e) == d
  {
    hide SamePair, Remain, After, Content, Concern, Counts;
    var all := q + [e];
    var stream := all[|all| - k..];
    assert Counts(stream[k - 1], k == 1, 0) && stream[k - 1] == e;
    if k == 1 {
      assert stream == [e];
      SingleContent(e);
      LastOutput(After(q, e.pair), e, d);
    } else {
      var before := q[|q| - (k - 1)..];
      assert stream == before + [e];
      assert forall i :: 0 <= i < k - 1 ==> before[i] == stream[i];
      ContentOfLonger(before, e);
      InOrderIsJoining(q, e.pair, k - 1, k - 1);
      assert Content(before) + e.bytes[1..] == [d.pid] + d.data;
      LastOutput(After(q, e.pair), e, d);
    }
  }

  lemma LastOutput(s: Slot, e: Event, d: Datagram)
    requires e.Segment? && e.bytes != [] && d.Datagram?
    requires (s.Joining? && s.remain == 1 && Counts(e, false, 0) && s.data + e.bytes[1..] == [d.pid] + d.data)
             || (Counts(e, true, 0) && e.bytes[1..] == [d.pid] + d.data)
    ensures Output(s, e) == d
  {
    hide Remain;
  }

  // ----- the segmenter -----

  function Min(a: int, b: int): int { if a < b then a else b }

  /** The frame a segment travels in: segment i of n with `size` bytes of the packet each. */
  function Frame(packet: seq<bv8>, size: int, n: int, i: int): seq<bv8>
    requires 0 <= i < n <= 128 && 0 < size && (n - 1) * size < |packet| <= n * size
  {
    PieceInside(packet, size, n, i);
    [PID_SEGMENT, if i == 0 then (n - 1 - i) as bv8 | SEG_FIRST else (n - 1 - i) as bv8]
    + packet[i * size..Min((i + 1) * size, |packet|)]
  }

  lemma PieceInside(packet: seq<bv8>, size: int, n: int, i: int)
    requires 0 <= i < n && 0 < size && (n - 1) * size < |packet| <= n * size
    ensures 0 <= i * size < |packet| && i * size <= Min((i + 1) * size, |packet|)
    ensures Min((i + 1) * size, |packet|) == if i == n - 1 then |packet| else (i + 1) * size
    ensures i < n - 1 ==> (i + 1) * size < |packet|
  {
    assert i * size <= (n - 1) * size;
    if i < n - 1 { assert (i + 1) * size <= (n - 1) * size; }
  }

  /** The number of segments a packet is cut into. */
  function Segments(len: int, size: int): int
    requires 0 < size && 0 < len
  {
    1 + (len - 1) / size
  }

  lemma SegmentsFit(len: int, size: int)
    requires 0 < size && 0 < len
    ensures (Segments(len, size) - 1) * size < len <= Segments(len, size) * size
    ensures Segments(len, size) > 0
  {
    var q := (len - 1) / size;
    assert q * size + (len - 1) % size == len - 1;
  }

  /** segmenter: the frames to send; none when the packet cannot be expressed. */
  method Segmenter(packet: seq<bv8>, paclen: nat) returns (frames: seq<seq<bv8>>)
    ensures |packet| <= paclen + 1 ==> frames == [packet]
    ensures |packet| > paclen + 1 && (paclen < 2 || Segments(|packet|, paclen - 1) > 128) ==> frames == []
    ensures |packet| > paclen + 1 && paclen >= 2 && Segments(|packet|, paclen - 1) <= 128 ==>
              IsCut(packet, paclen - 1, frames)
  {
    hide Segments, IsCut;
    if |packet| <= paclen + 1 { return [packet]; }
    if paclen < 2 { return []; }
    var segments := Segments(|packet|, paclen - 1);
    if segments - 1 > 127 { return []; }
    SegmentsFit(|packet|, paclen - 1);
    frames := Cut(packet, paclen - 1, segments);
    CutIsCut(packet, paclen - 1, frames);
  }

  lemma CutIsCut(packet: seq<bv8>, size: int, frames: seq<seq<bv8>>)
    requires 0 < size && 0 < |packet| && Segments(|packet|, size) == |frames| <= 128
    requires (|frames| - 1) * size < |packet| <= |frames| * size
    requires forall i :: 0 <= i < |frames| ==> frames[i] == Frame(packet, size, |frames|, i)
    ensures IsCut(packet, size, frames)
  {
    hide Frame;
  }

  /** The loop of segmenter. */
  method Cut(packet: seq<bv8>, ssize: int, n: int) returns (frames: seq<seq<bv8>>)
    requires 0 < ssize < |packet| && 0 < n <= 128 && (n - 1) * ssize < |packet| <= n * ssize
    ensures |frames| == n && forall i :: 0 <= i < n ==> frames[i] == Frame(packet, ssize, n, i)
  {
    hide Frame, Min;
    var segments := n;
    var offset := 0;
    frames := [];
    MinOf(0, |packet|);
    while segments != 0
      invariant 0 <= segments <= n && |frames| == n - segments
      invariant offset == Min(|frames| * ssize, |packet|)
      invariant forall i :: 0 <= i < |frames| ==> frames[i] == Frame(packet, ssize, n, i)
    {
      var next := NextPiece(packet, ssize, n, n - segments, offset);
      var piece := packet[offset..next];
      segments := segments - 1;
      offset := next;
      var counter := segments as bv8;
      if offset == ssize { counter := counter | SEG_FIRST; }
      FrameIs(packet, ssize, n, |frames|, counter);
      frames := frames + [[PID_SEGMENT, counter] + piece];
    }
  }

  lemma MinOf(a: int, b: int)
    ensures a <= b ==> Min(a, b) == a
  {
  }

  /** Where the i-th piece, which begins at offset, ends. */
  method NextPiece(packet: seq<bv8>, size: int, n: int, i: int, offset: int) returns (next: int)
    requires 0 <= i < n && 0 < size < |packet| && (n - 1) * size < |packet| <= n * size
    requires offset == Min(i * size, |packet|)
    ensures 0 <= offset == i * size <= next <= |packet| && next == Min((i + 1) * size, |packet|)
    ensures next == size <==> i == 0
  {
    PieceInside(packet, size, n, i);
    next := Min(offset + size, |packet|);
    NotFirst(i, size, next, |packet|);
  }

  lemma NotFirst(i: nat, size: int, offset: int, len: int)
    requires 0 < size && i * size < len && size < len && offset == Min((i + 1) * size, len)
    ensures offset == size <==> i == 0
  {
    if i > 0 { assert i * size >= size; }
  }

  lemma FrameIs(packet: seq<bv8>, size: int, n: int, i: int, counter: bv8)
    requires 0 <= i < n <= 128 && 0 < size && (n - 1) * size < |packet| <= n * size
    requires counter == if i == 0 then (n - 1 - i) as bv8 | SEG_FIRST else (n - 1 - i) as bv8
    ensures 0 <= i * size <= Min((i + 1) * size, |packet|)
    ensures [PID_SEGMENT, counter] + packet[i * size..Min((i + 1) * size, |packet|)] == Frame(packet, size, n, i)
  {
    PieceInside(packet, size, n, i);
  }

  ghost predicate IsCut(packet: seq<bv8>, size: int, frames: seq<seq<bv8>>)
    requires 0 < size && 0 < |packet|
  {
    var n := Segments(|packet|, size);
    SegmentsFit(|packet|, size);
    && |frames| == n <= 128
    && forall i :: 0 <= i < n ==> frames[i] == Frame(packet, size, n, i)
  }

  /** What the frames look like on the way: the pid of segments, a counter of the ones to
      come of which the top bit marks the first, and the pieces of the packet in order,
      all of them full but the last. */
  lemma CutFrames(packet: seq<bv8>, size: int, frames: seq<seq<bv8>>, i: nat)
    requires 0 < size && 0 < |packet| && IsCut(packet, size, frames) && i < |frames|
    ensures var f, n := frames[i], |frames|; var to := if i == n - 1 then |packet| else (i + 1) * size;
            && n <= 128 && (n - 1) * size < |packet| <= n * size && 0 <= i * size < to <= |packet|
            && |f| > 2 && f[0] == 0x08 && (f[1] & 0x80 != 0 <==> i == 0) && (f[1] & 0x7f) as int == n - 1 - i
            && f[2..] == packet[i * size..to]
  {
    hide Min;
    var n := |frames|;
    SegmentsFit(|packet|, size);
    PieceInside(packet, size, n, i);
    CounterBits(n - 1 - i);
  }

  // ----- from the segmenter through the reassembly -----

  /** The frames as the receiver of the pair is given them, without the pid. */
  function Received(pair: Pair, frames: seq<seq<bv8>>): seq<Event>
    requires forall i :: 0 <= i < |frames| ==> frames[i] != []
  {
    seq(|frames|, i requires 0 <= i < |frames| => Segment(pair, frames[i][1..], true))
  }

  lemma {:induction false} PiecesJoin(packet: seq<bv8>, size: int, n: int, pair: Pair, stream: seq<Event>, i: int)
    requires 0 < i <= n <= 128 && 0 < size && (n - 1) * size < |packet| <= n * size
    requires |stream| == i
    requires forall k :: 0 <= k < i ==> stream[k] == Segment(pair, Frame(packet, size, n, k)[1..], true)
    ensures InOrder(stream, n - 1)
    ensures 0 <= Min(i * size, |packet|) && Content(stream) == packet[..Min(i * size, |packet|)]
  {
    hide Remain, InOrder, Frame, Content, Min;
    PieceInside(packet, size, n, i - 1);
    PieceCounts(packet, size, n, i - 1, pair);
    var e := stream[i - 1];
    if i == 1 {
      assert stream == [e];
      SingleContent(e);
      SingleInOrder(e, n - 1);
    } else {
      var before := stream[..i - 1];
      PiecesJoin(packet, size, n, pair, before, i - 1);
      assert stream == before + [e];
      ContentOfLonger(before, e);
      LongerInOrder(before, e, n - 1);
      PieceInside(packet, size, n, i - 2);
    }
  }

  lemma LongerInOrder(before: seq<Event>, e: Event, n: int)
    requires InOrder(before, n) && |before| <= n && Counts(e, false, n - |before|)
    ensures InOrder(before + [e], n)
  {
    hide Counts;
  }

  lemma PieceCounts(packet: seq<bv8>, size: int, n: int, i: int, pair: Pair)
    requires 0 <= i < n <= 128 && 0 < size && (n - 1) * size < |packet| <= n * size
    ensures var f := Frame(packet, size, n, i);
            && |f| > 1 && f[0] == PID_SEGMENT && Counts(Segment(pair, f[1..], true), i == 0, n - 1 - i)
            && 0 <= i * size <= Min((i + 1) * size, |packet|)
                 && f[2..] == packet[i * size..Min((i + 1) * size, |packet|)]
            && f[1..][1..] == f[2..]
  {
    hide Min;
    PieceInside(packet, size, n, i);
    CounterBits(n - 1 - i);
  }

  lemma CounterBits(c: int)
    requires 0 <= c < 128
    ensures (c as bv8) & SEG_FIRST == 0 && Remain(c as bv8) == c
    ensures ((c as bv8) | SEG_FIRST) & SEG_FIRST != 0 && Remain((c as bv8) | SEG_FIRST) == c
  {
    var b := c as bv8;
    assert b < 0x80;
    SevenBits(b);
    assert b as int == c;
  }

  lemma SevenBits(b: bv8)
    requires b < 0x80
    ensures b & 0x80 == 0 && (b | 0x80) & 0x80 != 0 && b & 0x7f == b && (b | 0x80) & 0x7f == b
  {
  }

  /** A packet that was cut arrives whole, and nothing else does: once the
      pair's own events end with the frames it was cut into, whatever other
      pairs did in between, the last of them hands it on. */
  lemma CutPacketArrives(events: seq<Event>, pair: Pair, packet: seq<bv8>, size: int, frames: seq<seq<bv8>>)
    requires 0 < size && 0 < |packet| && IsCut(packet, size, frames)
    requires forall i :: 0 <= i < |frames| ==> frames[i] != []
    requires var s := Received(pair, frames); var q := Projection(events, pair) + [s[|s| - 1]];
             |s| <= |q| && q[|q| - |s|..] == s
    ensures Output(After(events, pair), Segment(pair, frames[|frames| - 1][1..], true)) ==
              Datagram(packet[0], packet[1..])
  {
    hide Frame, InOrder, Content, Min, Projection, Output, After, SamePair;
    var n := |frames|;
    SegmentsFit(|packet|, size);
    PieceInside(packet, size, n, n - 1);
    var s := Received(pair, frames);
    PiecesJoin(packet, size, n, pair, s, n);
    PieceCounts(packet, size, n, n - 1, pair);
    assert s[n - 1] == Segment(pair, frames[n - 1][1..], true);
    assert Completes(Projection(events, pair) + [s[n - 1]], n, Datagram(packet[0], packet[1..]));
    DeliveredIff(events, s[n - 1], Datagram(packet[0], packet[1..]));
  }
}
