/** The text form of a set of read articles, as bbs/bbs.c keeps it in .newsrc. */
module NewsrcText {
  import opened Numerals

  datatype Range = Range(low: int, high: int)

  // ----- ranges -----

  function RangeText(r: Range): string
    requires 0 <= r.low && 0 <= r.high
  {
    Decimal(r.low) + if r.low == r.high then "" else "-" + Decimal(r.high)
  }

  predicate Written(rs: seq<Range>) {
    forall i :: 0 <= i < |rs| ==> 0 <= rs[i].low <= rs[i].high
  }

  /** The ranges with a comma before each. */
  function Commas(rs: seq<Range>): string
    requires Written(rs)
  {
    if rs == [] then "" else Commas(rs[..|rs| - 1]) + "," + RangeText(rs[|rs| - 1])
  }

  /** What follows the name of a group: a space before the first range only. */
  function Ranges(rs: seq<Range>): string
    requires Written(rs)
  {
    if rs == [] then "" else " " + Commas(rs)[1..]
  }

  lemma {:induction false} CommasFromFirst(rs: seq<Range>)
    requires Written(rs) && rs != []
    ensures Commas(rs) == "," + RangeText(rs[0]) + Commas(rs[1..])
    decreases |rs|
  {
    hide RangeText, Commas;
    var n := |rs| - 1;
    CommasSnoc(rs[..n], rs[n]);
    assert rs[..n] + [rs[n]] == rs;
    if n == 0 {
      NoCommas();
      assert rs[..0] == [] && rs[1..] == [];
    } else {
      var a, mid, z := rs[..n], rs[1..n], rs[n];
      CommasFromFirst(a);
      CommasSnoc(mid, z);
      assert a[1..] == mid && a[0] == rs[0];
      assert rs[1..] == mid + [z];
      Regroup(",", RangeText(rs[0]), Commas(mid), ",", RangeText(z));
    }
  }

  lemma CommasSnoc(rs: seq<Range>, r: Range)
    requires Written(rs + [r])
    ensures Written(rs) && 0 <= r.low <= r.high && Commas(rs + [r]) == Commas(rs) + "," + RangeText(r)
  {
    hide RangeText;
    assert (rs + [r])[..|rs|] == rs && (rs + [r])[|rs|] == r;
    forall i | 0 <= i < |rs| ensures 0 <= rs[i].low <= rs[i].high {
      assert (rs + [r])[i] == rs[i];
    }
  }

  lemma Regroup(a: string, b: string, m: string, y: string, z: string)
    ensures a + b + m + y + z == a + b + (m + y + z)
  {
  }

  /** The ranges load_groups reads from what follows the space. */
  function ReadRanges(s: string): seq<Range>
    decreases |s|
  {
    if !StartsWithDigit(s) then []
    else
      var n := ReadNumber(0, s);
      RestIsShorter(0, s);
      if n.rest != "" && n.rest[0] == '-' then
        if !StartsWithDigit(n.rest[1..]) then []
        else
          var m := ReadNumber(0, n.rest[1..]);
          RestIsShorter(0, n.rest[1..]);
          [Range(n.value, m.value)] + if m.rest != "" && m.rest[0] == ',' then ReadRanges(m.rest[1..]) else []
      else
        [Range(n.value, n.value)] + if n.rest != "" && n.rest[0] == ',' then ReadRanges(n.rest[1..]) else []
  }

  lemma RestIsShorter(acc: int, s: string)
    ensures |ReadNumber(acc, s).rest| <= |s|
    ensures StartsWithDigit(s) ==> |ReadNumber(acc, s).rest| < |s|
    ensures !StartsWithDigit(ReadNumber(acc, s).rest)
    decreases |s|
  {
    if StartsWithDigit(s) { RestIsShorter(10 * acc + (s[0] as int - '0' as int), s[1..]); }
  }

  /** What was written is read back. */
  lemma {:induction false} RangesReadBack(rs: seq<Range>)
    requires Written(rs) && rs != []
    ensures ReadRanges(Commas(rs)[1..] + "\n") == rs
    decreases |rs|
  {
    hide Decimal, ReadNumber, RangeText, Commas, ReadRanges;
    CommasFromFirst(rs);
    var r, tail := rs[0], rs[1..];
    var more := Commas(tail);
    var rest := more + "\n";
    NoCommas();
    if tail == [] {
      assert rest == "\n";
    } else {
      CommasFromFirst(tail);
      RangesReadBack(tail);
      assert rest[0] == ',' && rest[1..] == more[1..] + "\n";
    }
    OneRangeReadsBack(r, rest);
    AfterComma(Commas(rs), RangeText(r), more);
    assert rs == [r] + tail;
  }

  lemma NoCommas()
    ensures Commas([]) == ""
  {
  }

  lemma AfterComma(all: string, text: string, more: string)
    requires all == "," + text + more
    ensures all != "" && all[1..] + "\n" == text + (more + "\n")
  {
  }

  lemma OneRangeReadsBack(r: Range, rest: string)
    requires 0 <= r.low <= r.high && rest != "" && !StartsWithDigit(rest) && rest[0] != '-'
    ensures ReadRanges(RangeText(r) + rest) == [r] + if rest[0] == ',' then ReadRanges(rest[1..]) else []
  {
    hide Decimal, ReadNumber;
    var s := RangeText(r) + rest;
    if r.low == r.high {
      assert s == Decimal(r.low) + rest;
      NumberReadsBack(r.low, rest);
    } else {
      var more := "-" + (Decimal(r.high) + rest);
      assert s == Decimal(r.low) + more;
      NumberReadsBack(r.low, more);
      assert more[1..] == Decimal(r.high) + rest;
      NumberReadsBack(r.high, rest);
    }
  }
}
