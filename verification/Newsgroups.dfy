/** The newsgroups of bbs/bbs.c as the program keeps them: marking articles,
    storing and loading .newsrc, and finding the next unread article. */
module Newsgroups {
  import opened Numerals
  import opened NewsrcText
  import opened Newsrc

  /** Whether loading the ranges finds that the file is out of date. */
  function OutOfDate(low: int, high: int, rs: seq<Range>): bool
    decreases |rs|
  {
    if rs == [] then false
    else if rs[0].high > high then true
    else rs[0].low < low || OutOfDate(low, high, rs[1..])
  }

  datatype Loading = Loading(st: State, changed: bool)

  function Loaded(low: int, high: int, st: State, changed: bool, rs: seq<Range>): Loading {
    Loading(Apply(low, high, st, rs), changed || OutOfDate(low, high, rs))
  }

  /** The line of a group. */
  function LineOf(name: string, subscribed: bool, read: set<int>, low: int, high: int): string
    requires 0 <= low
  {
    RunsAreWritten(read, low, high);
    name + (if subscribed then ":" else "!") + Ranges(Runs(read, low, high)) + "\n"
  }

  /** Reading digits from cp on. */
  method NumberAt(s: string, cp0: nat) returns (value: int, cp: nat)
    requires cp0 <= |s|
    ensures cp0 <= cp <= |s| && ReadNumber(0, s[cp0..]) == Number(value, s[cp..])
    ensures StartsWithDigit(s[cp0..]) ==> cp > cp0
  {
    value, cp := 0, cp0;
    while cp < |s| && IsDigit(s[cp])
      invariant cp0 <= cp <= |s| && ReadNumber(0, s[cp0..]) == ReadNumber(value, s[cp..])
    {
      assert s[cp..][1..] == s[cp + 1..];
      value := 10 * value + (s[cp] as int - '0' as int);
      cp := cp + 1;
    }
  }

  class Group {
    const name: string
    const low: int
    const high: int
    var subscribed: bool
    var unread: int
    const bitarray: array<bv8>

    ghost predicate Shape()
      reads this
    {
      0 <= low <= high + 1 && bitarray.Length == (high - low + 1) / 8 + 1
    }

    /** The articles that are read. */
    ghost function Reads(): set<int>
      reads this, bitarray
    {
      ReadSet(bitarray[..], low, high)
    }

    ghost function Now(): State
      reads this, bitarray
    {
      State(Reads(), unread)
    }

    /** The bits behind the one of the last article are clear. */
    ghost predicate Clean()
      reads this, bitarray
    {
      ClearFrom(bitarray[..], high - low + 1)
    }

    /** unread counts the articles that are not read. */
    ghost predicate Valid()
      reads this, bitarray
    {
      Shape() && Clean() && unread == high - low + 1 - |Reads()|
    }

    /** A group as the server announces it. */
    constructor (name: string, low: int, high: int, subscribed: bool)
      requires 0 <= low <= high + 1
      ensures Valid() && Now() == Fresh(low, high) && fresh(bitarray)
      ensures this.name == name && this.low == low && this.high == high && this.subscribed == subscribed
    {
      this.name, this.low, this.high, this.subscribed := name, low, high, subscribed;
      unread := high - low + 1;
      bitarray := new bv8[(high - low + 1) / 8 + 1](_ => 0);
      new;
      NoBits(bitarray[..], low, high);
    }

    /** Whether there is a bit for a number. */
    predicate HasBit(i: int)
      reads this
    {
      0 <= i - low < 8 * bitarray.Length
    }

    /** is_read, which does not look at the last article */
    method Seen(i: int) returns (b: bool)
      requires Shape() && HasBit(i)
      ensures i <= high ==> (b <==> i in Reads())
      ensures i > high && Clean() ==> !b
    {
      b := BitOf(bitarray[(i - low) / 8], (i - low) % 8);
      assert b == Bit(bitarray[..], i - low);
    }

    /** set_read */
    method SetRead(i: int)
      requires Shape() && low <= i <= high
      modifies bitarray
      ensures Reads() == old(Reads()) + {i} && (old(Clean()) ==> Clean())
    {
      hide BitOf, WithBit;
      ghost var bits := bitarray[..];
      bitarray[(i - low) / 8] := WithBit(bitarray[(i - low) / 8], (i - low) % 8);
      assert bitarray[..] == bits[(i - low) / 8 := WithBit(bits[(i - low) / 8], (i - low) % 8)];
      ReadAfterSet(bits, low, high, i);
      if ClearFrom(bits, high - low + 1) { StillClear(bits, high - low + 1, i - low); }
    }

    /** unset_read */
    method UnsetRead(i: int)
      requires Shape() && low <= i <= high
      modifies bitarray
      ensures Reads() == old(Reads()) - {i} && (old(Clean()) ==> Clean())
    {
      hide BitOf, WithoutBit;
      ghost var bits := bitarray[..];
      bitarray[(i - low) / 8] := WithoutBit(bitarray[(i - low) / 8], (i - low) % 8);
      assert bitarray[..] == bits[(i - low) / 8 := WithoutBit(bits[(i - low) / 8], (i - low) % 8)];
      ReadAfterSet(bits, low, high, i);
      if ClearFrom(bits, high - low + 1) { StillClear(bits, high - low + 1, i - low); }
    }

    /** One article is marked. */
    method MarkOne(mark: bool, i: int) returns (changed: bool)
      requires Valid() && low <= i <= high
      modifies this`unread, bitarray
      ensures Valid() && Reads() == Marked(old(Reads()), mark, {i})
      ensures changed == ((i in old(Reads())) != mark)
    {
      hide ReadSet;
      changed := false;
      var b := Seen(i);
      if mark {
        if !b {
          SetRead(i);
          unread := unread - 1;
          changed := true;
        }
      } else if b {
        UnsetRead(i);
        unread := unread + 1;
        changed := true;
      }
    }

    /** mark_command for one range: articles are marked as read or as unread. */
    method Mark(mark: bool, from: int, to: int) returns (changed: bool)
      requires Valid()
      modifies this`unread, bitarray
      ensures Valid()
      ensures from < low || to > high ==> Now() == old(Now()) && !changed
      ensures low <= from && to <= high ==>
                Reads() == Marked(old(Reads()), mark, Span(from, to)) && changed == (Reads() != old(Reads()))
    {
      hide ReadSet, Span, Marked;
      changed := false;
      if from < low || to > high { return; }
      var i := from;
      NothingMarked(Reads(), mark, from);
      while i <= to
        invariant Valid() && (i == from || from <= i <= to + 1)
        invariant Reads() == Marked(old(Reads()), mark, Span(from, i - 1))
        invariant changed == (Reads() != old(Reads()))
      {
        MarkedOn(old(Reads()), mark, from, i);
        var c := MarkOne(mark, i);
        changed := changed || c;
        i := i + 1;
      }
      EmptySpan(from, to);
      EmptySpan(from, from - 1);
    }

    /** The line store_groups writes. */
    method StoreLine() returns (line: string)
      requires Shape()
      ensures line == LineOf(name, subscribed, Reads(), low, high)
    {
      hide ReadSet, Runs, Storing, Ranges, Written, Decimal;
      ghost var read := Reads();
      RunsAreWritten(read, low, high);
      var text := "";
      ghost var done: seq<Range> := [];
      var first, state, laststate, writecomma := 0, false, false, false;
      StoreStarts(read, low, high);
      for i := low to high + 2
        invariant Storing(read, low, high, done, first, laststate, i)
        invariant writecomma == (done != []) && Written(done) && text == Ranges(done)
      {
        state := false;
        if i <= high { state := Seen(i); }
        StoreStep(read, low, high, done, first, laststate, i);
        if state != laststate {
          if state {
            first := i;
          } else {
            OneMoreRange(done, Range(first, i - 1));
            RangeTextIs(first, i - 1);
            ghost var before := text;
            text := text + if writecomma then "," else " ";
            writecomma := true;
            text := text + Decimal(first) + if first != i - 1 then "-" + Decimal(i - 1) else "";
            done := done + [Range(first, i - 1)];
          }
          laststate := state;
        }
      }
      StoreEnds(read, low, high, done, first, laststate);
      line := name + (if subscribed then ":" else "!") + text + "\n";
    }

    /** The articles from one to another are set read and counted off. */
    method SetSpan(from: int, to: int)
      requires Shape() && low <= from && to <= high
      modifies this`unread, bitarray
      ensures Reads() == old(Reads()) + Span(from, to) && (old(Clean()) ==> Clean())
      ensures unread == old(unread) - if from <= to then to - from + 1 else 0
    {
      hide ReadSet, Span;
      var i := from;
      EmptySpan(from, from - 1);
      while i <= to
        invariant Reads() == old(Reads()) + Span(from, i - 1) && (i == from || from <= i <= to + 1)
        invariant unread == old(unread) - (i - from) && (old(Clean()) ==> Clean())
      {
        SpanGrows(from, i);
        SetRead(i);
        unread := unread - 1;
        i := i + 1;
      }
      EmptySpan(from, to);
    }

    /** The group is made unread. */
    method Clear()
      requires Shape()
      modifies this`unread, bitarray
      ensures Now() == Fresh(low, high) && Clean()
    {
      for i := 0 to bitarray.Length
        invariant forall k :: 0 <= k < i ==> bitarray[k] == 0
      {
        bitarray[i] := 0;
      }
      unread := high - low + 1;
      NoBits(bitarray[..], low, high);
    }

    /** The loop of load_groups over the ranges of a line, from cp on. */
    method LoadRanges(s: string, cp0: nat) returns (changed: bool)
      requires Shape() && cp0 <= |s|
      modifies this`unread, bitarray
      ensures Loading(Now(), changed) == Loaded(low, high, old(Now()), false, ReadRanges(s[cp0..]))
      ensures old(Clean()) ==> Clean()
    {
      hide ReadSet, ReadNumber, Span, Loaded, ReadRanges;
      var cp := cp0;
      changed := false;
      while cp < |s| && IsDigit(s[cp])
        invariant cp0 <= cp <= |s| && (old(Clean()) ==> Clean())
        invariant Loaded(low, high, Now(), changed, ReadRanges(s[cp..])) ==
                    Loaded(low, high, old(Now()), false, ReadRanges(s[cp0..]))
        decreases |s| - cp
      {
        ghost var start := cp;
        var from, to;
        from, cp := NumberAt(s, cp);
        ghost var mid := cp;
        if cp < |s| && s[cp] == '-' {
          cp := cp + 1;
          if !(cp < |s| && IsDigit(s[cp])) {
            NoRangeAt(s, start, mid, from);
            NothingLoads(low, high, Now(), changed);
            return;
          }
          to, cp := NumberAt(s, cp);
        } else {
          to := from;
        }
        RangeAt(s, start, mid, cp, from, to);
        ghost var rest := if cp < |s| && s[cp] == ',' then ReadRanges(s[cp + 1..]) else [];
        OneRangeLoads(low, high, Now(), changed, Range(from, to), rest);
        if to > high {
          Clear();
          return true;
        }
        if from < low { from, changed := low, true; }
        SetSpan(from, to);
        if !(cp < |s| && s[cp] == ',') {
          NothingLoads(low, high, Now(), changed);
          return;
        }
        cp := cp + 1;
      }
      NoDigitAt(s, cp);
      NothingLoads(low, high, Now(), changed);
    }
  }

  /** The line has been written up to before i: done is complete, and a run is open
      from first on. */
  ghost predicate Storing(read: set<int>, low: int, high: int, done: seq<Range>, first: int, open: bool, i: int) {
    if open then
      && low <= first < i <= high + 1 && (forall x :: first <= x < i ==> x in read)
      && Runs(read, low, high) == done + Runs(read, first, high)
    else Runs(read, low, high) == done + Runs(read, i, high)
  }

  lemma StoreStarts(read: set<int>, low: int, high: int)
    ensures Storing(read, low, high, [], 0, false, low) && Written([]) && Ranges([]) == ""
  {
  }

  lemma StoreStep(read: set<int>, low: int, high: int, done: seq<Range>, first: int, open: bool, i: int)
    requires Storing(read, low, high, done, first, open, i) && 0 <= low <= i <= high + 1
    ensures var state := i <= high && i in read;
            && (state == open ==> Storing(read, low, high, done, first, open, i + 1))
            && (state && !open ==> Storing(read, low, high, done, i, true, i + 1))
            && (!state && open ==>
                 0 <= first <= i - 1 && Storing(read, low, high, done + [Range(first, i - 1)], first, false, i + 1))
  {
    hide RunEnd;
    var state := i <= high && i in read;
    if !state && open {
      RunEndIs(read, first, i - 1, high);
      NotReadHere(read, i, high);
      assert done + ([Range(first, i - 1)] + Runs(read, i, high)) ==
             (done + [Range(first, i - 1)]) + Runs(read, i, high);
    }
  }

  lemma StoreEnds(read: set<int>, low: int, high: int, done: seq<Range>, first: int, open: bool)
    requires Storing(read, low, high, done, first, open, high + 2)
    ensures done == Runs(read, low, high)
  {
  }

  /** The read articles once those of a set are marked. */
  function Marked(read: set<int>, mark: bool, s: set<int>): set<int> {
    if mark then read + s else read - s
  }

  lemma NothingMarked(read: set<int>, mark: bool, from: int)
    ensures Marked(read, mark, Span(from, from - 1)) == read
  {
  }

  lemma MarkedOn(read: set<int>, mark: bool, from: int, i: int)
    requires from <= i
    ensures Marked(Marked(read, mark, Span(from, i - 1)), mark, {i}) == Marked(read, mark, Span(from, i))
    ensures (i in Marked(read, mark, Span(from, i - 1))) == (i in read)
    ensures Marked(read, mark, Span(from, i)) != read <==>
              Marked(read, mark, Span(from, i - 1)) != read || (i in read) != mark
  {
    hide Inside;
    SpanGrows(from, i);
    assert i !in Span(from, i - 1);
    var a, b := Marked(read, mark, Span(from, i - 1)), Marked(read, mark, Span(from, i));
    if a != read {
      var x :| (x in a) != (x in read);
      assert (x in b) != (x in read);
    }
    if (i in read) != mark { assert (i in b) != (i in read); }
  }

  lemma StillClear(bits: seq<bv8>, n: int, k: int)
    requires 0 <= k < n && k < 8 * |bits| && ClearFrom(bits, n)
    ensures ClearFrom(bits[k / 8 := WithBit(bits[k / 8], k % 8)], n)
    ensures ClearFrom(bits[k / 8 := WithoutBit(bits[k / 8], k % 8)], n)
  {
    hide Bit, WithBit, WithoutBit;
    var b, c := bits[k / 8 := WithBit(bits[k / 8], k % 8)], bits[k / 8 := WithoutBit(bits[k / 8], k % 8)];
    forall j | n <= j < 8 * |bits| ensures !Bit(b, j) && !Bit(c, j) {
      BitsAfterSet(bits, k, j);
    }
  }

  lemma EmptySpan(from: int, to: int)
    ensures from > to ==> Span(from, to) == {}
  {
  }

  // ----- reading ranges off a line -----

  lemma NoDigitAt(s: string, cp: nat)
    requires cp <= |s| && !(cp < |s| && IsDigit(s[cp]))
    ensures ReadRanges(s[cp..]) == []
  {
  }

  lemma NoRangeAt(s: string, start: nat, mid: nat, from: int)
    requires start < mid < |s| && StartsWithDigit(s[start..]) && ReadNumber(0, s[start..]) == Number(from, s[mid..])
    requires s[mid] == '-' && !StartsWithDigit(s[mid + 1..])
    ensures ReadRanges(s[start..]) == []
  {
    hide ReadNumber;
    assert s[mid..][1..] == s[mid + 1..];
  }

  lemma RangeAt(s: string, start: nat, mid: nat, cp: nat, from: int, to: int)
    requires start < mid <= cp <= |s| && StartsWithDigit(s[start..])
    requires ReadNumber(0, s[start..]) == Number(from, s[mid..])
    requires if mid < |s| && s[mid] == '-' then StartsWithDigit(s[mid + 1..])
               && ReadNumber(0, s[mid + 1..]) == Number(to, s[cp..])
             else to == from && cp == mid
    ensures ReadRanges(s[start..]) == [Range(from, to)] +
              if cp < |s| && s[cp] == ',' then ReadRanges(s[cp + 1..]) else []
  {
    hide ReadNumber;
    if mid < |s| { assert s[mid..][1..] == s[mid + 1..]; }
    if cp < |s| { assert s[cp..][1..] == s[cp + 1..]; }
  }

  lemma NothingLoads(low: int, high: int, st: State, changed: bool)
    ensures Loaded(low, high, st, changed, []) == Loading(st, changed)
  {
  }

  lemma OneRangeLoads(low: int, high: int, st: State, changed: bool, r: Range, rest: seq<Range>)
    ensures var from := if r.low < low then low else r.low;
            Loaded(low, high, st, changed, [r] + rest) ==
              if r.high > high then Loading(Fresh(low, high), true)
              else Loaded(low, high, State(st.read + Span(from, r.high), st.unread -
                  if from <= r.high then r.high - from + 1 else 0), changed || r.low < low, rest)
  {
    assert ([r] + rest)[1..] == rest;
  }

  lemma NoBits(bits: seq<bv8>, low: int, high: int)
    requires low <= high + 1 && forall k :: 0 <= k < |bits| ==> bits[k] == 0
    ensures ReadSet(bits, low, high) == {} && ClearFrom(bits, high - low + 1)
  {
    forall k | high - low + 1 <= k < 8 * |bits| ensures !Bit(bits, k) {
      ZeroHasNoBits(k % 8);
    }
    forall i | low <= i <= high ensures !IsRead(bits, low, i) {
      ZeroHasNoBits((i - low) % 8);
    }
  }

  lemma ZeroHasNoBits(k: nat)
    ensures !BitOf(0, k)
  {
  }

  lemma ReadAfterSet(bits: seq<bv8>, low: int, high: int, i: int)
    requires low <= i <= high && i - low < 8 * |bits|
    ensures ReadSet(bits[(i - low) / 8 := WithBit(bits[(i - low) / 8], (i - low) % 8)], low, high) ==
              ReadSet(bits, low, high) + {i}
    ensures ReadSet(bits[(i - low) / 8 := WithoutBit(bits[(i - low) / 8], (i - low) % 8)], low, high) ==
              ReadSet(bits, low, high) - {i}
  {
    hide Bit, WithBit, WithoutBit;
    forall j | low <= j <= high
      ensures IsRead(bits[(i - low) / 8 := WithBit(bits[(i - low) / 8], (i - low) % 8)], low, j) <==>
                j == i || IsRead(bits, low, j)
      ensures IsRead(bits[(i - low) / 8 := WithoutBit(bits[(i - low) / 8], (i - low) % 8)], low, j) <==>
                j != i && IsRead(bits, low, j)
    {
      BitsAfterSet(bits, i - low, j - low);
    }
  }

  lemma OneMoreRange(done: seq<Range>, r: Range)
    requires Written(done) && 0 <= r.low <= r.high
    ensures Written(done + [r]) && Ranges(done + [r]) == Ranges(done) + (if done == [] then " " else ",") + RangeText(r)
  {
    hide RangeText;
    assert (done + [r])[..|done|] == done;
  }

  lemma RangeTextIs(a: int, b: int)
    requires 0 <= a <= b
    ensures RangeText(Range(a, b)) == Decimal(a) + if a != b then "-" + Decimal(b) else ""
  {
  }

  lemma NotReadHere(read: set<int>, i: int, high: int)
    ensures i > high || i !in read ==> Runs(read, i, high) == Runs(read, i + 1, high)
  {
  }
}
