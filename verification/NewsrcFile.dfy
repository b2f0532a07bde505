/** The .newsrc file and the list of groups of bbs/bbs.c. */
module NewsrcFile {
  import opened NewsrcText
  import opened Newsrc
  import opened Newsgroups

  // ----- the order of the group names -----

  /** strcmp */
  function Strcmp(a: string, b: string): int
    decreases |a|
  {
    if a == "" then (if b == "" then 0 else -1)
    else if b == "" then 1
    else if a[0] != b[0] then a[0] as int - b[0] as int
    else Strcmp(a[1..], b[1..])
  }

  lemma {:induction false} StrcmpIsEquality(a: string, b: string)
    ensures Strcmp(a, b) == 0 <==> a == b
    decreases |a|
  {
    if a != "" && b != "" && a[0] == b[0] {
      StrcmpIsEquality(a[1..], b[1..]);
      assert a == [a[0]] + a[1..] && b == [b[0]] + b[1..];
    }
  }

  lemma {:induction false} StrcmpFlips(a: string, b: string)
    ensures Strcmp(a, b) < 0 <==> Strcmp(b, a) > 0
    decreases |a|
  {
    if a != "" && b != "" && a[0] == b[0] { StrcmpFlips(a[1..], b[1..]); }
  }

  lemma {:induction false} StrcmpChain(a: string, b: string, c: string)
    requires Strcmp(a, b) < 0 && Strcmp(b, c) < 0
    ensures Strcmp(a, c) < 0
    decreases |a|
  {
    if a != "" && b != "" && c != "" && a[0] == b[0] && b[0] == c[0] { StrcmpChain(a[1..], b[1..], c[1..]); }
  }

  ghost predicate Sorted(groups: seq<Group>) {
    forall i, j :: 0 <= i < j < |groups| ==> Strcmp(groups[i].name, groups[j].name) < 0
  }

  /** find_group: the index of the group, or the length of the list. */
  method FindGroup(groups: seq<Group>, name: string) returns (p: nat)
    requires Sorted(groups)
    ensures p <= |groups| && (p < |groups| ==> groups[p].name == name)
    ensures p == |groups| ==> forall i :: 0 <= i < |groups| ==> groups[i].name != name
  {
    hide Strcmp;
    p := 0;
    while p < |groups|
      invariant p <= |groups| && forall i :: 0 <= i < p ==> groups[i].name != name
    {
      var r := Strcmp(groups[p].name, name);
      StrcmpIsEquality(groups[p].name, name);
      if r == 0 { return p; }
      if r > 0 {
        LaterAreGreater(groups, p, name);
        return |groups|;
      }
      p := p + 1;
    }
  }

  lemma LaterAreGreater(groups: seq<Group>, p: nat, name: string)
    requires Sorted(groups) && p < |groups| && Strcmp(groups[p].name, name) > 0
    ensures forall i :: p <= i < |groups| ==> groups[i].name != name
  {
    hide Strcmp;
    StrcmpFlips(name, groups[p].name);
    forall i | p <= i < |groups| ensures groups[i].name != name {
      StrcmpIsEquality(name, name);
      if i > p { StrcmpChain(name, groups[p].name, groups[i].name); }
    }
  }

  // ----- one line -----

  datatype Stored = Stored(subscribed: bool, st: State)

  /** Where the name of a line ends. */
  function NameEnd(line: string, k: nat): (e: nat)
    requires k <= |line|
    ensures k <= e <= |line|
    decreases |line| - k
  {
    if k < |line| && line[k] != ':' && line[k] != '!' then NameEnd(line, k + 1) else k
  }

  /** What a line makes of the group called name. */
  function LineLoads(name: string, low: int, high: int, was: Stored, line: string): Stored {
    var e := NameEnd(line, 0);
    if e == |line| || line[..e] != name then was
    else if e + 1 < |line| && line[e + 1] == ' ' then
      Stored(line[e] == ':', Apply(low, high, was.st, ReadRanges(line[e + 2..])))
    else Stored(line[e] == ':', was.st)
  }

  /** A name as group names are. */
  predicate Plain(name: string) {
    forall i :: 0 <= i < |name| ==> name[i] != ':' && name[i] != '!'
  }

  lemma {:induction false} NameEndsAt(name: string, rest: string, k: nat)
    requires Plain(name) && k <= |name| && rest != "" && (rest[0] == ':' || rest[0] == '!')
    ensures NameEnd(name + rest, k) == |name|
    decreases |name| - k
  {
    if k < |name| { NameEndsAt(name, rest, k + 1); }
  }

  /** What is stored of one group and loaded into it again. The new bounds may be
      others: the articles within them are read again, unless an article past the
      new last one was, and then none is. */
  lemma LineComesBack(name: string, subscribed: bool, read: set<int>, low: int, high: int, low': int,
      high': int, was: bool)
    requires Plain(name) && 0 <= low && read <= Span(low, high) && 0 <= low' <= high' + 1
    ensures var s := LineLoads(name, low', high', Stored(was, Fresh(low', high')),
              LineOf(name, subscribed, read, low, high));
            && s.subscribed == subscribed
            && s.st.unread == high' - low' + 1 - |s.st.read|
            && s.st.read == if Passes(read, high') then {} else Within(read, low', high')
  {
    hide Runs, Apply, ReadRanges;
    RunsAreWritten(read, low, high);
    var rs := Runs(read, low, high);
    var mark := if subscribed then ":" else "!";
    var rest := mark + (Ranges(rs) + "\n");
    var line := LineOf(name, subscribed, read, low, high);
    assert line == name + rest;
    NameEndsAt(name, rest, 0);
    assert line[|name|] == rest[0];
    StoredLoads(read, low, high, low', high');
    if rs == [] {
      assert line[|name| + 1] == '\n';
      NoRuns(low', high', Fresh(low', high'));
    } else {
      var c := Commas(rs)[1..] + "\n";
      assert rest == mark + (" " + c);
      assert line[|name| + 1] == ' ' && line[|name| + 2..] == c;
      RangesReadBack(rs);
    }
  }

  lemma {:induction false} OtherLinesPassBy(name: string, other: string, subscribed: bool, read: set<int>,
      low: int, high: int, low': int, high': int, was: Stored)
    requires Plain(other) && 0 <= low && other != name
    ensures LineLoads(name, low', high', was, LineOf(other, subscribed, read, low, high)) == was
  {
    hide Runs, Apply, ReadRanges;
    RunsAreWritten(read, low, high);
    var mark := if subscribed then ":" else "!";
    var rest := mark + (Ranges(Runs(read, low, high)) + "\n");
    assert LineOf(other, subscribed, read, low, high) == other + rest;
    NameEndsAt(other, rest, 0);
  }

  // ----- the file -----

  /** The groups do not share what they are made of. */
  ghost predicate Apart(groups: seq<Group>)
    reads groups
  {
    && (forall i :: 0 <= i < |groups| ==> groups[i].Shape())
    && (forall i, j :: 0 <= i < j < |groups| ==> groups[i] != groups[j] && groups[i].bitarray != groups[j].bitarray)
  }

  ghost function Arrays(groups: seq<Group>): set<object> {
    set g | g in groups :: g.bitarray as object
  }

  ghost function Objects(groups: seq<Group>): set<object> {
    set g | g in groups :: g as object
  }

  ghost function StoredOf(g: Group): Stored
    reads g, g.bitarray
  {
    Stored(g.subscribed, g.Now())
  }

  /** One turn of load_groups: a line is read and its group, if there is one, takes it. */
  method LoadLine(groups: seq<Group>, line: string) returns (changed: bool)
    requires Sorted(groups) && Apart(groups)
    modifies Objects(groups), Arrays(groups)
    ensures Apart(groups)
    ensures forall i :: 0 <= i < |groups| ==>
              StoredOf(groups[i]) == LineLoads(groups[i].name,
                  groups[i].low, groups[i].high, old(StoredOf(groups[i])), line)
    ensures forall i :: 0 <= i < |groups| && old(groups[i].Clean()) ==> groups[i].Clean()
  {
    hide Apply, ReadRanges, ReadSet, Strcmp, Sorted, ClearFrom;
    changed := false;
    var cp := 0;
    while cp < |line| && line[cp] != ':' && line[cp] != '!'
      invariant 0 <= cp <= |line| && NameEnd(line, 0) == NameEnd(line, cp)
    {
      cp := cp + 1;
    }
    if cp == |line| { return true; }
    var p := FindGroup(groups, line[..cp]);
    if p == |groups| { return true; }
    NamesDiffer(groups, p);
    var g := groups[p];
    g.subscribed := line[cp] == ':';
    if !(cp + 1 < |line| && line[cp + 1] == ' ') { return true; }
    changed := g.LoadRanges(line, cp + 2);
  }

  lemma NamesDiffer(groups: seq<Group>, p: nat)
    requires Sorted(groups) && p < |groups|
    ensures forall i :: 0 <= i < |groups| && i != p ==> groups[i].name != groups[p].name
  {
    hide Strcmp;
    forall i | 0 <= i < |groups| && i != p ensures groups[i].name != groups[p].name {
      StrcmpIsEquality(groups[p].name, groups[p].name);
    }
  }

  function LinesLoad(name: string, low: int, high: int, was: Stored, lines: seq<string>): Stored
    decreases |lines|
  {
    if lines == [] then was
    else LineLoads(name, low, high, LinesLoad(name, low, high, was, lines[..|lines| - 1]), lines[|lines| - 1])
  }

  /** The loop of load_groups over the lines. */
  method LoadLines(groups: seq<Group>, lines: seq<string>) returns (changed: bool)
    requires Sorted(groups) && Apart(groups)
    modifies Objects(groups), Arrays(groups)
    ensures Apart(groups)
    ensures forall i :: 0 <= i < |groups| ==>
              StoredOf(groups[i]) == LinesLoad(groups[i].name,
                  groups[i].low, groups[i].high, old(StoredOf(groups[i])), lines)
    ensures forall i :: 0 <= i < |groups| && old(groups[i].Clean()) ==> groups[i].Clean()
  {
    hide Apply, ReadSet, Sorted, LineLoads, ClearFrom;
    changed := false;
    for k := 0 to |lines|
      invariant Apart(groups) && forall i :: 0 <= i < |groups| && old(groups[i].Clean()) ==> groups[i].Clean()
      invariant forall i :: 0 <= i < |groups| ==>
                  StoredOf(groups[i]) == LinesLoad(groups[i].name,
                      groups[i].low, groups[i].high, old(StoredOf(groups[i])), lines[..k])
    {
      assert lines[..k + 1][..k] == lines[..k];
      var c := LoadLine(groups, lines[k]);
      changed := changed || c;
    }
    assert lines[..|lines|] == lines;
  }

  /** A group as it was when the file was written. */
  datatype Record = Record(name: string, subscribed: bool, read: set<int>, low: int, high: int)

  ghost predicate RecordOk(r: Record) {
    Plain(r.name) && 0 <= r.low && r.read <= Span(r.low, r.high)
  }

  function RecordLine(r: Record): string {
    if 0 <= r.low then LineOf(r.name, r.subscribed, r.read, r.low, r.high) else ""
  }

  function File(records: seq<Record>): seq<string> {
    seq(|records|, i requires 0 <= i < |records| => RecordLine(records[i]))
  }

  ghost predicate NamedOnce(records: seq<Record>) {
    && (forall i :: 0 <= i < |records| ==> RecordOk(records[i]))
    && (forall i, j :: 0 <= i < j < |records| ==> records[i].name != records[j].name)
  }

  /** Every group gets back from the file what was written of it, whatever else is
      in the file. */
  lemma {:induction false} FileComesBack(records: seq<Record>, j: nat, low: int, high: int, was: bool)
    requires NamedOnce(records) && j < |records| && 0 <= low <= high + 1
    ensures var r := records[j];
            var s := LinesLoad(r.name, low, high, Stored(was, Fresh(low, high)), File(records));
            && s.subscribed == r.subscribed
            && s.st.unread == high - low + 1 - |s.st.read|
            && s.st.read == if Passes(r.read, high) then {} else Within(r.read, low, high)
    decreases |records|
  {
    hide LineOf, LineLoads, Within, Passes;
    var n := |records| - 1;
    var before := records[..n];
    assert File(records)[..n] == File(before);
    var r, last := records[j], records[n];
    assert RecordOk(r) && RecordOk(last);
    if j == n {
      NotInFile(before, r.name, low, high, Stored(was, Fresh(low, high)));
      LineComesBack(r.name, r.subscribed, r.read, r.low, r.high, low, high, was);
    } else {
      FileComesBack(before, j, low, high, was);
      OtherLinesPassBy(r.name, last.name, last.subscribed, last.read, last.low, last.high, low, high,
                       LinesLoad(r.name, low, high, Stored(was, Fresh(low, high)), File(before)));
    }
  }

  lemma {:induction false} NotInFile(records: seq<Record>, name: string, low: int, high: int, was: Stored)
    requires forall i :: 0 <= i < |records| ==> RecordOk(records[i]) && records[i].name != name
    ensures LinesLoad(name, low, high, was, File(records)) == was
    decreases |records|
  {
    hide LineOf, LineLoads;
    if records != [] {
      var n := |records| - 1;
      assert File(records)[..n] == File(records[..n]);
      var last := records[n];
      assert RecordOk(last);
      NotInFile(records[..n], name, low, high, was);
      OtherLinesPassBy(name, last.name, last.subscribed, last.read, last.low, last.high, low, high, was);
    }
  }

  // ----- the next unread article -----

  /** No article was passed over on the way from `from` to a, going round at the end. */
  ghost predicate NextFrom(read: set<int>, low: int, high: int, from: int, a: int) {
    && low <= a <= high && a !in read
    && if from <= a then forall x :: from <= x < a ==> x in read
       else (forall x :: from <= x <= high ==> x in read) && forall x :: low <= x < a ==> x in read
  }

  /** The loop of set_position, which has no bound of its own: it ends because
      something is unread. It comes to an article of the group exactly when it starts
      at one; from a number past the last article it does not move. */
  method NextUnread(g: Group, from: int) returns (a: int)
    requires g.Valid() && g.unread != 0 && g.HasBit(from)
    ensures if from <= g.high then NextFrom(g.Reads(), g.low, g.high, from, a) else a == from
    ensures g.low <= a <= g.high <==> from <= g.high
  {
    hide ReadSet, Group.Clean;
    var past := from > g.high;
    if past {
      var b := g.Seen(from);
      return from;
    }
    ghost var read := g.Reads();
    ghost var target := SomeUnread(g);
    a := from;
    while true
      invariant g.low <= a <= g.high
      invariant if from <= a then (forall x :: from <= x < a ==> x in read)
                else (forall x :: from <= x <= g.high ==> x in read) && forall x :: g.low <= x < a ==> x in read
      decreases if target >= a then target - a else target - a + (g.high - g.low + 1)
    {
      var b := g.Seen(a);
      if !b { return; }
      a := a + 1;
      if a > g.high { a := g.low; }
    }
  }

  lemma SomeUnread(g: Group) returns (x: int)
    requires g.Valid() && g.unread != 0
    ensures g.low <= x <= g.high && x !in g.Reads()
  {
    var s := Span(g.low, g.high);
    FewerThanSpan(g.Reads(), g.low, g.high);
    x :| x in s && x !in g.Reads();
  }

  /** The current article is one of the current group, where that has any to read. */
  ghost predicate PositionFits(groups: seq<Group>, current: int, article: int)
    reads groups
  {
    current == -1
    || (0 <= current < |groups|
        && (groups[current].unread != 0 ==> groups[current].low <= article <= groups[current].high))
  }

  /** There is a bit for the current article in the array of the current group. */
  ghost predicate PositionHasBit(groups: seq<Group>, current: int, article: int)
    reads groups
  {
    current == -1
    || (0 <= current < |groups| && (groups[current].unread != 0 ==> groups[current].HasBit(article)))
  }

  /** What load_groups does about the position, before it reads the file: the group of
      the same name, and its first article where the one of before is gone. It does
      not look at the other end: the position fits exactly when the article of before
      does not pass the new last one, or the group has nothing to read. */
  method RestorePosition(groups: seq<Group>, name: string, saved: int) returns (current: int, article: int)
    requires Sorted(groups) && forall i :: 0 <= i < |groups| ==> groups[i].Valid()
    ensures -1 <= current < |groups|
    ensures current == -1 <==> name == "" || forall i :: 0 <= i < |groups| ==> groups[i].name != name
    ensures current >= 0 ==>
              && groups[current].name == name
              && article == if saved < groups[current].low then groups[current].low else saved
    ensures current == -1 ==> article == 0
    ensures PositionFits(groups, current, article) <==>
              current == -1 || groups[current].unread == 0 || saved <= groups[current].high
    ensures PositionHasBit(groups, current, article) <==>
              current == -1 || groups[current].unread == 0
              || saved < groups[current].low + 8 * groups[current].bitarray.Length
  {
    hide Strcmp, Sorted, ReadSet, Group.Clean;
    current, article := -1, 0;
    if name != "" {
      var p := FindGroup(groups, name);
      if p < |groups| {
        current, article := p, saved;
        if article < groups[p].low { article := groups[p].low; }
        UnreadFits(groups[p]);
      }
    }
  }

  /** The last article has gone back from 12 or more to 10: the current one is 12
      still, and 12 is what set_position finds, though all of 1 to 10 are unread. */
  method PositionPastEnd() returns (before: int, found: bool, after: int, high: int)
    ensures before == 12 && found && after == 12 && high == 10
  {
    var g := new Group("news", 1, 10, true);
    var current;
    current, before := RestorePosition([g], "news", 12);
    assert [g][0].name == "news";
    found, current, after := SetPosition([g], current, before);
    high := g.high;
  }

  /** What set_position has found in a group from a position on: the next unread
      article, if the position is one of the group. A number past the last article is
      found itself. */
  ghost predicate FoundFrom(g: Group, from: int, article: int)
    reads g, g.bitarray
  {
    && (if from <= g.high then NextFrom(g.Reads(), g.low, g.high, from, article) else article == from)
    && (g.low <= article <= g.high <==> from <= g.high)
  }

  /** set_position towards the next unread article; current is the index of the
      current group, or -1. */
  method SetPosition(groups: seq<Group>, current0: int, article0: int) returns (found: bool, current: int, article: int)
    requires forall i :: 0 <= i < |groups| ==> groups[i].Valid()
    requires PositionHasBit(groups, current0, article0)
    ensures found ==> 0 <= current < |groups| && groups[current].unread != 0
    ensures found && current == current0 ==> FoundFrom(groups[current], article0, article)
    ensures found && current != current0 ==>
              && groups[current].subscribed && FoundFrom(groups[current], groups[current].low, article)
              && groups[current].low <= article <= groups[current].high
    ensures current0 >= 0 && groups[current0].unread != 0 ==> found && current == current0
    ensures !found ==> forall i :: 0 <= i < |groups| && groups[i].subscribed ==> groups[i].unread == 0
  {
    hide ReadSet, NextFrom, Exhausted, Group.Clean;
    current, article := current0, article0;
    if current == -1 {
      current := FirstSubscribed(groups);
      if current == -1 {
        NoneSubscribed(groups);
        return false, -1, article;
      }
      article := groups[current].low;
      UnreadFits(groups[current]);
    }
    if groups[current].unread == 0 {
      var p := NextGroup(groups, current);
      if p == -1 {
        AllExhausted(groups);
        return false, current, article;
      }
      current, article := p, groups[p].low;
      UnreadFits(groups[p]);
    }
    article := NextUnread(groups[current], article);
    found := true;
  }

  method FirstSubscribed(groups: seq<Group>) returns (p: int)
    ensures -1 <= p < |groups| && (p >= 0 ==> groups[p].subscribed)
    ensures p == -1 ==> forall i :: 0 <= i < |groups| ==> !groups[i].subscribed
  {
    p := 0;
    while p < |groups| && !groups[p].subscribed
      invariant 0 <= p <= |groups| && forall i :: 0 <= i < p ==> !groups[i].subscribed
    {
      p := p + 1;
    }
    if p == |groups| { p := -1; }
  }

  /** Once round the list for another group to read. */
  method NextGroup(groups: seq<Group>, current: int) returns (p: int)
    requires 0 <= current < |groups| && groups[current].unread == 0
    ensures -1 <= p < |groups| && p != current && (p >= 0 ==> groups[p].subscribed && groups[p].unread != 0)
    ensures p == -1 ==> forall i :: 0 <= i < |groups| ==> Exhausted(groups[i])
  {
    p := current;
    while true
      invariant 0 <= p < |groups|
      invariant if p >= current then forall i :: current <= i <= p ==> Exhausted(groups[i])
                else forall i :: 0 <= i < |groups| && (i <= p || i >= current) ==> Exhausted(groups[i])
      decreases if p >= current then |groups| - p + current else current - p
    {
      p := p + 1;
      if p == |groups| { p := 0; }
      if p == current { return -1; }
      if groups[p].subscribed && groups[p].unread != 0 { return; }
    }
  }

  lemma NoneSubscribed(groups: seq<Group>)
    requires forall i :: 0 <= i < |groups| ==> !groups[i].subscribed
    ensures forall i :: 0 <= i < |groups| && groups[i].subscribed ==> groups[i].unread == 0
  {
  }

  lemma AllExhausted(groups: seq<Group>)
    requires forall i :: 0 <= i < |groups| ==> Exhausted(groups[i])
    ensures forall i :: 0 <= i < |groups| && groups[i].subscribed ==> groups[i].unread == 0
  {
    forall i | 0 <= i < |groups| && groups[i].subscribed ensures groups[i].unread == 0 {
      assert Exhausted(groups[i]);
    }
  }

  ghost predicate Exhausted(g: Group)
    reads g
  {
    g.subscribed ==> g.unread == 0
  }

  lemma UnreadFits(g: Group)
    requires g.Valid()
    ensures g.unread != 0 ==> g.low <= g.high
  {
    FewerThanSpan(g.Reads(), g.low, g.high);
  }
}
