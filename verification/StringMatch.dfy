/** The glob matcher of lib/strmatch.c. Strings are the bytes before the NUL. */
module StringMatch {

  type Byte = b: int | 0 < b < 256 witness 1
  type String = seq<Byte>

  const QUESTION: Byte := 63
  const STAR: Byte := 42
  const BRACKET: Byte := 91
  const CLOSE: Byte := 93
  const BANG: Byte := 33
  const DASH: Byte := 45
  const BACKSLASH: Byte := 92

  // ----- what a pattern means -----

  /** The bytes between two, whichever is given first. */
  datatype Range = Range(a: Byte, b: Byte)

  datatype Token = Literal(c: Byte) | AnyOne | AnyRun | Class(reverse: bool, members: seq<Range>)

  /** A pattern is its tokens, and whether what follows them is malformed. */
  datatype Pattern = Pattern(tokens: seq<Token>, malformed: bool)

  datatype Members = Unclosed | Closed(members: seq<Range>, rest: String)

  predicate Between(r: Range, c: Byte) {
    if r.a <= r.b then r.a <= c <= r.b else r.b <= c <= r.a
  }

  predicate Has(members: seq<Range>, c: Byte) {
    exists r :: r in members && Between(r, c)
  }

  /** What is after the bracket and the `!`: at least one member, up to the first
      bracket that closes the class; a bracket in the first place is a member. */
  function ReadMembers(p: String): Members
    decreases |p|, 0
  {
    if p == [] then Unclosed
    else if |p| >= 2 && p[1] == DASH && !(|p| >= 3 && p[2] == CLOSE) then
      if |p| == 2 then Unclosed else ReadOn(Range(p[0], p[2]), p[3..])
    else ReadOn(Range(p[0], p[0]), p[1..])
  }

  function ReadOn(r: Range, p: String): Members
    decreases |p|, 1
  {
    if p != [] && p[0] == CLOSE then Closed([r], p[1..])
    else
      var more := ReadMembers(p);
      if more.Unclosed? then Unclosed else Closed([r] + more.members, more.rest)
  }

  function Then(t: Token, p: Pattern): Pattern {
    Pattern([t] + p.tokens, p.malformed)
  }

  lemma RestIsShorter(p: String)
    ensures ReadMembers(p).Closed? ==> |ReadMembers(p).rest| < |p|
    decreases |p|
  {
    if |p| >= 2 && p[1] == DASH && !(|p| >= 3 && p[2] == CLOSE) {
      if |p| >= 3 && !(p[3..] != [] && p[3] == CLOSE) { RestIsShorter(p[3..]); }
    } else if p != [] && !(p[1..] != [] && p[1] == CLOSE) {
      RestIsShorter(p[1..]);
    }
  }

  function Read(p: String): Pattern
    decreases |p|
  {
    if p == [] then Pattern([], false)
    else if p[0] == QUESTION then Then(AnyOne, Read(p[1..]))
    else if p[0] == STAR then Then(AnyRun, Read(p[1..]))
    else if p[0] == BRACKET then
      var reverse := |p| >= 2 && p[1] == BANG;
      var body := if reverse then p[2..] else p[1..];
      var m := ReadMembers(body);
      RestIsShorter(body);
      if m.Unclosed? then Pattern([], true) else Then(Class(reverse, m.members), Read(m.rest))
    else if p[0] == BACKSLASH then
      if |p| == 1 then Pattern([], true) else Then(Literal(p[1]), Read(p[2..]))
    else Then(Literal(p[0]), Read(p[1..]))
  }

  predicate FitsOne(t: Token, c: Byte) {
    match t
    case Literal(x) => c == x
    case AnyOne => true
    case AnyRun => true
    case Class(reverse, members) => Has(members, c) != reverse
  }

  /** The string a token stands for: one byte, or any run of them. */
  predicate Fits(t: Token, piece: String) {
    if t.AnyRun? then true else |piece| == 1 && FitsOne(t, piece[0])
  }

  function Concat(pieces: seq<String>): String {
    if pieces == [] then [] else pieces[0] + Concat(pieces[1..])
  }

  ghost predicate Cut(pieces: seq<String>, tokens: seq<Token>) {
    |pieces| == |tokens| && forall i :: 0 <= i < |tokens| ==> Fits(tokens[i], pieces[i])
  }

  /** The language of a pattern: what can be cut into one piece for every token.
      Nothing is in the language of a malformed one. */
  ghost predicate InLanguage(s: String, p: Pattern) {
    !p.malformed && exists pieces :: Cut(pieces, p.tokens) && Concat(pieces) == s
  }

  // ----- the language token by token -----

  lemma NoTokens(s: String)
    ensures InLanguage(s, Pattern([], false)) <==> s == []
  {
    if s == [] { assert Cut([], []) && Concat([]) == s; }
  }

  lemma FirstToken(s: String, t: Token, p: Pattern, k: nat)
    requires k <= |s| && Fits(t, s[..k]) && InLanguage(s[k..], p)
    ensures InLanguage(s, Then(t, p))
  {
    hide Fits;
    var rest :| Cut(rest, p.tokens) && Concat(rest) == s[k..];
    var pieces := [s[..k]] + rest;
    assert pieces[1..] == rest;
    assert Concat(pieces) == s;
    assert Cut(pieces, Then(t, p).tokens);
  }

  lemma FirstPiece(s: String, t: Token, p: Pattern) returns (k: nat)
    requires InLanguage(s, Then(t, p))
    ensures k <= |s| && Fits(t, s[..k]) && InLanguage(s[k..], p)
  {
    hide Fits;
    var tokens := Then(t, p).tokens;
    var pieces :| Cut(pieces, tokens) && Concat(pieces) == s;
    k := |pieces[0]|;
    assert Fits(tokens[0], pieces[0]);
    assert s[..k] == pieces[0] && s[k..] == Concat(pieces[1..]);
    assert tokens[1..] == p.tokens;
    assert Cut(pieces[1..], p.tokens) by {
      forall i | 0 <= i < |p.tokens| ensures Fits(p.tokens[i], pieces[1..][i]) {
        assert Fits(tokens[i + 1], pieces[i + 1]);
      }
    }
  }

  lemma OneByte(s: String, t: Token, p: Pattern)
    requires !t.AnyRun?
    ensures InLanguage(s, Then(t, p)) <==> s != [] && FitsOne(t, s[0]) && InLanguage(s[1..], p)
  {
    hide FitsOne, InLanguage;
    if InLanguage(s, Then(t, p)) {
      var k := FirstPiece(s, t, p);
    }
    if s != [] && FitsOne(t, s[0]) && InLanguage(s[1..], p) {
      assert s[..1] == [s[0]];
      FirstToken(s, t, p, 1);
    }
  }

  lemma Run(s: String, p: Pattern)
    ensures InLanguage(s, Then(AnyRun, p)) <==> exists k :: 0 <= k <= |s| && InLanguage(s[k..], p)
  {
    hide InLanguage;
    if InLanguage(s, Then(AnyRun, p)) {
      var k := FirstPiece(s, AnyRun, p);
    }
    if k :| 0 <= k <= |s| && InLanguage(s[k..], p) {
      FirstToken(s, AnyRun, p, k);
    }
  }

  lemma RunAtEnd(s: String)
    ensures InLanguage(s, Then(AnyRun, Pattern([], false)))
  {
    assert s[|s|..] == [];
    NoTokens(s[|s|..]);
    Run(s, Pattern([], false));
  }

  // ----- the matcher -----

  function At(s: String, i: nat): int {
    if i < |s| then s[i] else 0
  }

  /** The class after a bracket at j: whether c is a member, and where the pattern
      goes on. */
  method MatchMembers(p: String, j0: nat, c: Byte) returns (closed: bool, member: bool, j: nat)
    requires j0 <= |p|
    ensures closed <==> ReadMembers(p[j0..]).Closed?
    ensures closed ==> j <= |p| && ReadMembers(p[j0..]).rest == p[j..] && member == Has(ReadMembers(p[j0..]).members, c)
  {
    hide Between;
    j, member := j0, false;
    ghost var seen: seq<Range> := [];
    while true
      invariant j0 <= j <= |p| && member == Has(seen, c)
      invariant ReadMembers(p[j0..]) == Onto(seen, ReadMembers(p[j..]))
      decreases |p| - j
    {
      ghost var q := p[j..];
      if At(p, j) == 0 { return false, member, j; }
      var c1 := p[j];
      j := j + 1;
      var r := Range(c1, c1);
      BetweenSame(c1, c);
      member := member || c1 == c;
      if At(p, j) == DASH && At(p, j + 1) != CLOSE {
        j := j + 1;
        if At(p, j) == 0 { return false, member, j; }
        var c2 := p[j];
        j := j + 1;
        r := Range(c1, c2);
        member := member || (if c1 <= c2 then c1 <= c && c <= c2 else c >= c2 && c <= c1);
        EndsBetween(r, c);
        assert q[3..] == p[j..];
      } else {
        assert q[1..] == p[j..];
      }
      assert ReadMembers(q) == ReadOn(r, p[j..]);
      OneMore(seen, r, c);
      OntoOne(seen, r, p[j..]);
      seen := seen + [r];
      if At(p, j) == CLOSE { return true, member, j + 1; }
    }
  }

  lemma BetweenSame(c1: Byte, c: Byte)
    ensures Between(Range(c1, c1), c) <==> c1 == c
  {
  }

  lemma EndsBetween(r: Range, c: Byte)
    ensures Between(r, c) <==> c == r.a || if r.a <= r.b then r.a <= c && c <= r.b else c >= r.b && c <= r.a
  {
  }

  function Onto(seen: seq<Range>, m: Members): Members {
    if m.Unclosed? then m else Closed(seen + m.members, m.rest)
  }

  lemma OneMore(seen: seq<Range>, r: Range, c: Byte)
    ensures Has(seen + [r], c) <==> Has(seen, c) || Between(r, c)
  {
    hide Between;
    if Has(seen, c) {
      var x :| x in seen && Between(x, c);
      assert x in seen + [r];
    }
    assert r in seen + [r];
  }

  lemma OntoOne(seen: seq<Range>, r: Range, p: String)
    ensures if p != [] && p[0] == CLOSE then Onto(seen, ReadOn(r, p)) == Closed(seen + [r], p[1..])
            else Onto(seen, ReadOn(r, p)) == Onto(seen + [r], ReadMembers(p))
  {
    if !(p != [] && p[0] == CLOSE) {
      var more := ReadMembers(p);
      if more.Closed? { assert seen + ([r] + more.members) == (seen + [r]) + more.members; }
    }
  }

  /** stringmatch, from s[i] and p[j] on */
  method MatchFrom(s: String, i0: nat, p: String, j0: nat) returns (b: bool)
    requires i0 <= |s| && j0 <= |p|
    ensures b <==> InLanguage(s[i0..], Read(p[j0..]))
    decreases |p| - j0, |s| - i0
  {
    hide InLanguage, FitsOne, Read, ReadMembers, Has;
    var i, j := i0, j0;
    while true
      invariant i0 <= i <= |s| && j0 <= j <= |p|
      invariant InLanguage(s[i0..], Read(p[j0..])) <==> InLanguage(s[i..], Read(p[j..]))
      decreases |p| - j
    {
      ReadAt(p, j);
      var rest := s[i..];
      if At(p, j) == 0 {
        NoTokens(rest);
        return i == |s|;
      } else if p[j] == QUESTION {
        OneByte(rest, AnyOne, Read(p[j + 1..]));
        FitsAny(rest);
        if i == |s| { return false; }
        assert rest[1..] == s[i + 1..];
        i, j := i + 1, j + 1;
      } else if p[j] == STAR {
        j := j + 1;
        if At(p, j) == 0 {
          ReadAt(p, j);
          RunAtEnd(rest);
          return true;
        }
        b := MatchRun(s, i, p, j);
        return;
      } else if p[j] == BRACKET {
        var reverse := At(p, j + 1) == BANG;
        var start := if reverse then j + 2 else j + 1;
        ghost var m := ReadMembers(p[start..]);
        if m.Closed? { OneByte(rest, Class(reverse, m.members), Read(m.rest)); }
        NothingIfMalformed(rest);
        if i == |s| { return false; }
        var closed, member, next := MatchMembers(p, start, s[i]);
        if !closed { return false; }
        ClassFits(reverse, m.members, s[i]);
        RestIsShorter(p[start..]);
        if member == reverse { return false; }
        assert rest[1..] == s[i + 1..];
        i, j := i + 1, next;
      } else {
        if p[j] == BACKSLASH {
          j := j + 1;
          if At(p, j) == 0 {
            NothingIfMalformed(rest);
            return false;
          }
        }
        OneByte(rest, Literal(p[j]), Read(p[j + 1..]));
        LiteralFits(p[j], rest);
        if At(s, i) != p[j] { return false; }
        assert rest[1..] == s[i + 1..];
        i, j := i + 1, j + 1;
      }
    }
  }

  /** The loop over what a `*` may stand for. */
  method MatchRun(s: String, i0: nat, p: String, j: nat) returns (b: bool)
    requires i0 <= |s| && 0 < j <= |p|
    ensures b <==> InLanguage(s[i0..], Then(AnyRun, Read(p[j..])))
    decreases |p| - j, |s| - i0 + 1
  {
    hide InLanguage, Read;
    Run(s[i0..], Read(p[j..]));
    var i := i0;
    while true
      invariant i0 <= i <= |s|
      invariant forall k :: 0 <= k < i - i0 ==> !InLanguage(s[i0..][k..], Read(p[j..]))
      decreases |s| - i
    {
      assert s[i0..][i - i0..] == s[i..];
      b := MatchFrom(s, i, p, j);
      if b { return true; }
      if i == |s| { return false; }
      i := i + 1;
    }
  }

  lemma NothingIfMalformed(s: String)
    ensures !InLanguage(s, Pattern([], true))
  {
  }

  lemma FitsAny(s: String)
    ensures s != [] ==> FitsOne(AnyOne, s[0])
  {
  }

  lemma LiteralFits(c: Byte, s: String)
    ensures s != [] ==> (FitsOne(Literal(c), s[0]) <==> s[0] == c)
  {
  }

  lemma ClassFits(reverse: bool, members: seq<Range>, c: Byte)
    ensures FitsOne(Class(reverse, members), c) <==> Has(members, c) != reverse
  {
  }

  /** What Read makes of the pattern from j on. */
  lemma ReadAt(p: String, j: nat)
    requires j <= |p|
    ensures j == |p| ==> Read(p[j..]) == Pattern([], false)
    ensures j < |p| && p[j] == QUESTION ==> Read(p[j..]) == Then(AnyOne, Read(p[j + 1..]))
    ensures j < |p| && p[j] == STAR ==> Read(p[j..]) == Then(AnyRun, Read(p[j + 1..]))
    ensures j < |p| && p[j] == BRACKET ==>
              var reverse := j + 1 < |p| && p[j + 1] == BANG;
              var m := ReadMembers(p[if reverse then j + 2 else j + 1..]);
              Read(p[j..]) == if m.Unclosed? then Pattern([], true) else Then(Class(reverse, m.members), Read(m.rest))
    ensures j < |p| && p[j] == BACKSLASH ==>
              Read(p[j..]) == if j + 1 == |p| then Pattern([], true) else Then(Literal(p[j + 1]), Read(p[j + 2..]))
    ensures j < |p| && p[j] != QUESTION && p[j] != STAR && p[j] != BRACKET && p[j] != BACKSLASH ==>
              Read(p[j..]) == Then(Literal(p[j]), Read(p[j + 1..]))
  {
    hide ReadMembers;
    var q := p[j..];
    if j < |p| { assert q[1..] == p[j + 1..]; }
    if j + 1 < |p| { assert q[2..] == p[j + 2..]; }
  }

  /** stringmatch */
  method StringMatch(s: String, p: String) returns (b: bool)
    ensures b <==> InLanguage(s, Read(p))
  {
    hide InLanguage, Read;
    assert s[0..] == s && p[0..] == p;
    b := MatchFrom(s, 0, p, 0);
  }

  // ----- a pattern for one string -----

  /** Every byte with its special meaning taken away. */
  function Escaped(s: String): String {
    if s == [] then [] else [BACKSLASH, s[0]] + Escaped(s[1..])
  }

  /** The escaped form of a string matches that string and no other. */
  lemma {:induction false} EscapedMatchesOnlyItself(t: String, s: String)
    ensures InLanguage(t, Read(Escaped(s))) <==> t == s
    decreases |s|
  {
    hide InLanguage, Read, FitsOne;
    var p := Escaped(s);
    assert p[0..] == p;
    ReadAt(p, 0);
    if s == [] {
      NoTokens(t);
    } else {
      assert p[2..] == Escaped(s[1..]);
      OneByte(t, Literal(s[0]), Read(p[2..]));
      LiteralFits(s[0], t);
      if t != [] {
        EscapedMatchesOnlyItself(t[1..], s[1..]);
        assert t == [t[0]] + t[1..] && s == [s[0]] + s[1..];
      }
    }
  }

  // ----- what the signs of a pattern stand for -----

  /** `?` is any byte, `*` any run of bytes, a backslash takes the meaning of the next byte
      away, and any other byte but a bracket is itself. */
  lemma SignsMean(s: String, c: Byte, p: String)
    ensures InLanguage(s, Read([63] + p)) <==> s != [] && InLanguage(s[1..], Read(p))
    ensures InLanguage(s, Read([42] + p)) <==> exists k :: 0 <= k <= |s| && InLanguage(s[k..], Read(p))
    ensures InLanguage(s, Read([92, c] + p)) <==> s != [] && s[0] == c && InLanguage(s[1..], Read(p))
    ensures c !in {63, 42, 91, 92} ==>
              (InLanguage(s, Read([c] + p)) <==> s != [] && s[0] == c && InLanguage(s[1..], Read(p)))
    ensures InLanguage(s, Read([])) <==> s == []
    ensures !InLanguage(s, Read([92]))
  {
    hide InLanguage;
    assert forall x: Byte :: ([x] + p)[1..] == p;
    assert ([92, c] + p)[2..] == p;
    OneByte(s, AnyOne, Read(p));
    Run(s, Read(p));
    OneByte(s, Literal(c), Read(p));
    NoTokens(s);
    NothingIfMalformed(s);
  }

  /** A member of a class as it is written: a byte, or the bytes between two. */
  datatype Member = One(c: Byte) | Span(a: Byte, b: Byte)

  function Start(m: Member): Byte {
    if m.One? then m.c else m.a
  }

  function ClassText(ms: seq<Member>): String {
    if ms == [] then [] else (if ms[0].One? then [ms[0].c] else [ms[0].a, 45, ms[0].b]) + ClassText(ms[1..])
  }

  /** A closing bracket is a member in the first place only, and a dash where it cannot be
      taken for the sign between two bytes: in the first place or in the last. */
  ghost predicate Legible(ms: seq<Member>)
    decreases ms
  {
    && ms != [] && (ms[0].Span? ==> ms[0].b != 93)
    && (|ms| > 1 ==>
          && Start(ms[1]) != 93 && Legible(ms[1..])
          && (ms[0].One? && Start(ms[1]) == 45 ==> |ms| == 2 && ms[1].One?))
  }

  ghost predicate Named(ms: seq<Member>, c: Byte) {
    exists m :: m in ms && if m.One? then c == m.c else m.a <= c <= m.b || m.b <= c <= m.a
  }

  lemma {:induction false} ClassIsRead(ms: seq<Member>, rest: String) returns (ranges: seq<Range>)
    requires Legible(ms)
    ensures ReadMembers(ClassText(ms) + [93] + rest) == Closed(ranges, rest)
    ensures forall c :: Has(ranges, c) <==> Named(ms, c)
    decreases ms
  {
    hide Between;
    var p := ClassText(ms) + [93] + rest;
    var r := if ms[0].One? then Range(ms[0].c, ms[0].c) else Range(ms[0].a, ms[0].b);
    var after := ClassText(ms[1..]) + [93] + rest;
    assert p == (if ms[0].One? then [ms[0].c] else [ms[0].a, 45, ms[0].b]) + after;
    if |ms| == 1 {
      ranges := [r];
      assert after == [93] + rest && after[1..] == rest;
      FirstMember(ms[0], r, p, after);
    } else {
      var more := ClassIsRead(ms[1..], rest);
      ranges := [r] + more;
      assert after[0] == Start(ms[1]);
      assert |ms| == 2 && ms[1] == One(45) ==> ms[1..][1..] == [] && after[1] == 93;
      FirstMember(ms[0], r, p, after);
    }
    forall c ensures Has(ranges, c) <==> Named(ms, c) {
      RangeOf(ms[0], r, c);
      assert ranges == [r] + ranges[1..] && ms == [ms[0]] + ms[1..];
      assert Has(ranges, c) <==> Between(r, c) || Has(ranges[1..], c);
    }
  }

  lemma RangeOf(m: Member, r: Range, c: Byte)
    requires r == if m.One? then Range(m.c, m.c) else Range(m.a, m.b)
    ensures Between(r, c) <==> if m.One? then c == m.c else m.a <= c <= m.b || m.b <= c <= m.a
  {
  }

  lemma FirstMember(m: Member, r: Range, p: String, after: String)
    requires p == (if m.One? then [m.c] else [m.a, 45, m.b]) + after && after != []
    requires r == if m.One? then Range(m.c, m.c) else Range(m.a, m.b)
    requires m.Span? ==> m.b != 93
    requires m.One? && after[0] == 45 ==> |after| > 1 && after[1] == 93
    ensures ReadMembers(p) == ReadOn(r, after)
  {
    if m.One? { assert p[1..] == after; } else { assert p[3..] == after; }
  }

  /** A class stands for one byte: one that is named in it, or with `!` in front one that
      is not. */
  lemma ClassMeans(s: String, ms: seq<Member>, rest: String)
    requires Legible(ms)
    ensures Start(ms[0]) != 33 ==>
              (InLanguage(s, Read([91] + ClassText(ms) + [93] + rest)) <==>
                 s != [] && Named(ms, s[0]) && InLanguage(s[1..], Read(rest)))
    ensures InLanguage(s, Read([91, 33] + ClassText(ms) + [93] + rest)) <==>
              s != [] && !Named(ms, s[0]) && InLanguage(s[1..], Read(rest))
  {
    hide InLanguage, Named, Has, Legible, ReadMembers;
    var body := ClassText(ms) + [93] + rest;
    var ranges := ClassIsRead(ms, rest);
    var p, q := [91] + ClassText(ms) + [93] + rest, [91, 33] + ClassText(ms) + [93] + rest;
    assert p == [91] + body && q == [91, 33] + body;
    assert p[1..] == body && q[2..] == body;
    assert p[1] == Start(ms[0]) by { assert ms != [] by { LegibleIsSome(ms); } }
    OneByte(s, Class(false, ranges), Read(rest));
    OneByte(s, Class(true, ranges), Read(rest));
  }

  lemma LegibleIsSome(ms: seq<Member>)
    requires Legible(ms)
    ensures ms != []
  {
  }

  /** A class that is not closed stands for nothing. */
  lemma NotClosed(s: String, p: String)
    requires 93 !in p
    ensures !InLanguage(s, Read([91] + p))
  {
    hide InLanguage;
    assert ([91] + p)[1..] == p;
    NeverClosed(p);
    if p != [] {
      assert ([91] + p)[2..] == p[1..];
      NeverClosed(p[1..]);
    }
    NothingIfMalformed(s);
  }

  lemma {:induction false} NeverClosed(p: String)
    requires 93 !in p
    ensures ReadMembers(p).Unclosed?
    decreases |p|
  {
    if |p| >= 3 && p[1] == DASH { NeverClosed(p[3..]); }
    if p != [] { NeverClosed(p[1..]); }
  }
}
