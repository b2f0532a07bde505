/** The read articles of a newsgroup (bbs/bbs.c): a bit array with a count of the
    unread ones, and how it is stored in and loaded from .newsrc. */
module Newsrc {
  import opened NewsrcText

  // ----- bits -----

  function Mask(k: nat): bv8 {
    if k == 0 then 0x01 else if k == 1 then 0x02 else if k == 2 then 0x04 else if k == 3 then 0x08
    else if k == 4 then 0x10 else if k == 5 then 0x20 else if k == 6 then 0x40 else 0x80
  }

  predicate BitOf(b: bv8, k: nat) {
    b & Mask(k) != 0
  }

  function WithBit(b: bv8, k: nat): bv8 {
    b | Mask(k)
  }

  function WithoutBit(b: bv8, k: nat): bv8 {
    b & !Mask(k)
  }

  lemma MaskSets(b: bv8, k: nat, j: nat)
    requires k < 8 && j < 8
    ensures BitOf(WithBit(b, k), j) <==> j == k || BitOf(b, j)
    ensures BitOf(WithoutBit(b, k), j) <==> j != k && BitOf(b, j)
  {
  }

  predicate Bit(bits: seq<bv8>, k: int) {
    0 <= k < 8 * |bits| && BitOf(bits[k / 8], k % 8)
  }

  ghost predicate ClearFrom(bits: seq<bv8>, n: int) {
    forall k :: n <= k < 8 * |bits| ==> !Bit(bits, k)
  }

  lemma BitsAfterSet(bits: seq<bv8>, k: int, j: int)
    requires 0 <= k < 8 * |bits|
    ensures Bit(bits[k / 8 := WithBit(bits[k / 8], k % 8)], j) <==> j == k || Bit(bits, j)
    ensures Bit(bits[k / 8 := WithoutBit(bits[k / 8], k % 8)], j) <==> j != k && Bit(bits, j)
  {
    hide BitOf, WithBit, WithoutBit;
    if 0 <= j < 8 * |bits| { MaskSets(bits[k / 8], k % 8, j % 8); }
  }

  predicate IsRead(bits: seq<bv8>, low: int, i: int) {
    Bit(bits, i - low)
  }

  function ReadSet(bits: seq<bv8>, low: int, high: int): set<int> {
    set i | low <= i <= high && IsRead(bits, low, i)
  }

  predicate Inside(i: int, low: int, high: int) {
    low <= i <= high
  }

  function Span(low: int, high: int): set<int> {
    set i | low <= i <= high && Inside(i, low, high)
  }

  lemma SpanGrows(from: int, i: int)
    ensures from <= i ==> Span(from, i) == Span(from, i - 1) + {i} && i !in Span(from, i - 1)
    ensures from > i ==> Span(from, i) == {}
  {
  }

  lemma {:induction false} SpanSize(low: int, high: int)
    requires low <= high + 1
    ensures |Span(low, high)| == high - low + 1
    decreases high - low + 1
  {
    hide Span;
    SpanGrows(low, high);
    if low <= high { SpanSize(low, high - 1); }
  }

  lemma FewerThanSpan(s: set<int>, low: int, high: int)
    requires low <= high + 1 && s <= Span(low, high)
    ensures |s| <= high - low + 1
    ensures |s| == high - low + 1 <==> s == Span(low, high)
  {
    SpanSize(low, high);
    SubsetSize(s, Span(low, high));
  }

  lemma {:induction false} SubsetSize(s: set<int>, t: set<int>)
    requires s <= t
    ensures |s| <= |t| && (|s| == |t| <==> s == t)
  {
    var rest := t - s;
    assert t == s + rest && s !! rest;
    assert |t| == |s| + |rest|;
  }

  // ----- the ranges that are stored -----

  /** The last article of a run of read ones. */
  function RunEnd(read: set<int>, i: int, high: int): (e: int)
    requires i <= high && i in read
    ensures i <= e <= high && (e == high || e + 1 !in read)
    ensures forall x :: i <= x <= e ==> x in read
    decreases high - i
  {
    if i < high && i + 1 in read then RunEnd(read, i + 1, high) else i
  }

  function Runs(read: set<int>, i: int, high: int): seq<Range>
    decreases high - i + 1
  {
    if i > high then []
    else if i !in read then Runs(read, i + 1, high)
    else
      var e := RunEnd(read, i, high);
      [Range(i, e)] + Runs(read, e + 1, high)
  }

  lemma {:induction false} RunsAreWritten(read: set<int>, i: int, high: int)
    requires 0 <= i
    ensures Written(Runs(read, i, high))
    decreases high - i + 1
  {
    if i <= high {
      if i !in read { RunsAreWritten(read, i + 1, high); }
      else { RunsAreWritten(read, RunEnd(read, i, high) + 1, high); }
    }
  }

  lemma {:induction false} RunEndIs(read: set<int>, i: int, e: int, high: int)
    requires i <= e <= high && (forall x :: i <= x <= e ==> x in read) && (e == high || e + 1 !in read)
    ensures RunEnd(read, i, high) == e
    decreases e - i
  {
    if i < e { RunEndIs(read, i + 1, e, high); }
  }

  // ----- what loading ranges makes of a group -----

  datatype State = State(read: set<int>, unread: int)

  function Fresh(low: int, high: int): State {
    State({}, high - low + 1)
  }

  /** The ranges one after the other; one that passes the last article makes the
      group unread. */
  function Apply(low: int, high: int, st: State, rs: seq<Range>): State
    decreases |rs|
  {
    if rs == [] then st
    else if rs[0].high > high then Fresh(low, high)
    else
      var from := if rs[0].low < low then low else rs[0].low;
      var n := if from <= rs[0].high then rs[0].high - from + 1 else 0;
      Apply(low, high, State(st.read + Span(from, rs[0].high), st.unread - n), rs[1..])
  }

  function Within(read: set<int>, low: int, high: int): set<int> {
    set i | i in read && low <= i <= high
  }

  ghost predicate Passes(read: set<int>, limit: int) {
    exists x :: x in read && x > limit
  }

  function Below(read: set<int>, low: int, high: int, i: int): set<int> {
    set x | x in read && low <= x <= high && x < i
  }

  /** Loading the runs from i on, when those before are loaded. */
  lemma {:induction false} RunsLoad(read: set<int>, i: int, high: int, low': int, high': int, st: State)
    requires (forall x :: x in read ==> x <= high) && low' <= high' + 1
    requires st.read == Below(read, low', high', i) && st.unread == high' - low' + 1 - |st.read|
    requires forall x :: x in read && x < i ==> x <= high'
    ensures var after := Apply(low', high', st, Runs(read, i, high));
            && after.unread == high' - low' + 1 - |after.read|
            && after.read == if Passes(read, high') then {} else Within(read, low', high')
    decreases high - i + 1
  {
    hide RunEnd, Apply;
    NoRuns(low', high', st);
    if i > high {
      assert st.read == Within(read, low', high');
    } else if i !in read {
      assert Below(read, low', high', i + 1) == st.read;
      RunsLoad(read, i + 1, high, low', high', st);
    } else {
      var e := RunEnd(read, i, high);
      var rs := Runs(read, i, high);
      assert rs[0] == Range(i, e) && rs[1..] == Runs(read, e + 1, high);
      FirstRun(low', high', st, rs);
      if e > high' {
        assert e in read && Passes(read, high');
      } else {
        var from := if i < low' then low' else i;
        var st' := State(st.read + Span(from, e), st.unread - if from <= e then e - from + 1 else 0);
        RunAdds(read, i, e, low', high', st);
        RunsLoad(read, e + 1, high, low', high', st');
      }
    }
  }

  lemma NoRuns(low: int, high: int, st: State)
    ensures Apply(low, high, st, []) == st
  {
  }

  lemma FirstRun(low: int, high: int, st: State, rs: seq<Range>)
    requires rs != []
    ensures var from := if rs[0].low < low then low else rs[0].low;
            Apply(low, high, st, rs) ==
              if rs[0].high > high then Fresh(low, high)
              else Apply(low, high, State(st.read + Span(from, rs[0].high), st.unread -
                  if from <= rs[0].high then rs[0].high - from + 1 else 0), rs[1..])
  {
  }

  lemma RunAdds(read: set<int>, i: int, e: int, low: int, high: int, st: State)
    requires i <= e <= high && (forall x :: i <= x <= e ==> x in read) && st.read == Below(read, low, high, i)
    ensures var from := if i < low then low else i;
            && st.read + Span(from, e) == Below(read, low, high, e + 1)
            && |Below(read, low, high, e + 1)| == |st.read| + if from <= e then e - from + 1 else 0
  {
    var from := if i < low then low else i;
    if from <= e { SpanSize(from, e); } else { assert Span(from, e) == {}; }
    assert st.read !! Span(from, e);
    assert st.read + Span(from, e) == Below(read, low, high, e + 1);
  }

  /** A read set that was stored with one pair of bounds and is loaded with another:
      what lies within the new bounds, or nothing at all if something read passes
      the new last article. The count is right in either case. */
  lemma StoredLoads(read: set<int>, low: int, high: int, low': int, high': int)
    requires read <= Span(low, high) && low' <= high' + 1
    ensures var after := Apply(low', high', Fresh(low', high'), Runs(read, low, high));
            && after.unread == high' - low' + 1 - |after.read|
            && after.read == if Passes(read, high') then {} else Within(read, low', high')
  {
    hide Apply, Runs;
    assert Below(read, low', high', low) == {};
    RunsLoad(read, low, high, low', high', Fresh(low', high'));
  }

  // ----- ranges that store_groups would not write -----

  predicate Resets(high: int, rs: seq<Range>) {
    exists r :: r in rs && r.high > high
  }

  /** No article is in two of the ranges, nor read before. */
  predicate NoOverlap(low: int, read: set<int>, rs: seq<Range>)
    decreases |rs|
  {
    rs == [] || var span := Span(if rs[0].low < low then low else rs[0].low, rs[0].high);
                read !! span && NoOverlap(low, read + span, rs[1..])
  }

  /** How far the count of unread articles is below the number of clear bits. */
  function Shortfall(low: int, high: int, st: State): int {
    high - low + 1 - |st.read| - st.unread
  }

  /** After loading a line the count is right exactly when the group was made unread
      or no article was in two of the ranges; otherwise it is too small. */
  lemma {:induction false} CountIsRightIff(low: int, high: int, st: State, rs: seq<Range>)
    requires Shortfall(low, high, st) >= 0
    ensures Resets(high, rs) ==> Shortfall(low, high, Apply(low, high, st, rs)) == 0
    ensures !Resets(high, rs) ==>
              && Shortfall(low, high, Apply(low, high, st, rs)) >= Shortfall(low, high, st)
              && (Shortfall(low, high, Apply(low, high, st, rs)) == Shortfall(low, high, st) <==>
                   NoOverlap(low, st.read, rs))
    decreases |rs|
  {
    hide Apply;
    NoRuns(low, high, st);
    if rs != [] {
      FirstRun(low, high, st, rs);
      ResetsSplits(high, rs);
      if rs[0].high <= high {
        var from := if rs[0].low < low then low else rs[0].low;
        var n := if from <= rs[0].high then rs[0].high - from + 1 else 0;
        var st' := State(st.read + Span(from, rs[0].high), st.unread - n);
        SpanAdds(st.read, from, rs[0].high);
        CountIsRightIff(low, high, st', rs[1..]);
      }
    }
  }

  /** Articles 1 to 5 and the ranges 1-3 and 3-4: four are read, one is not, and the
      count says none. */
  lemma SharedArticle()
    ensures var st := Apply(1, 5, Fresh(1, 5), [Range(1, 3), Range(3, 4)]);
            st.read == {1, 2, 3, 4} && st.unread == 0 && Shortfall(1, 5, st) == 1
  {
    var rs := [Range(1, 3), Range(3, 4)];
    FirstRun(1, 5, Fresh(1, 5), rs);
    assert rs[1..] == [Range(3, 4)];
    FirstRun(1, 5, State({} + Span(1, 3), 2), [Range(3, 4)]);
    assert {} + Span(1, 3) + Span(3, 4) == {1, 2, 3, 4};
  }

  lemma ResetsSplits(high: int, rs: seq<Range>)
    requires rs != []
    ensures Resets(high, rs) <==> rs[0].high > high || Resets(high, rs[1..])
  {
    assert rs == [rs[0]] + rs[1..];
  }

  lemma SpanAdds(read: set<int>, from: int, to: int)
    ensures var n := if from <= to then to - from + 1 else 0;
            |read + Span(from, to)| <= |read| + n && (|read + Span(from, to)| == |read| + n <==> read !! Span(from, to))
  {
    if from <= to { SpanSize(from, to); } else { assert Span(from, to) == {}; }
    var s := Span(from, to);
    assert read + s == read + (s - read);
    assert |s| == |s * read| + |s - read| by { assert s == (s * read) + (s - read); }
  }
}
