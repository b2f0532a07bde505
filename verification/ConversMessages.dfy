/** How a message for a channel or a user is handed on (convers/conversd.c). */
module ConversMessages {
  import opened Options
  import opened Numerals
  import opened ConversNode

  datatype Audience = Channel(channel: int) | Person(name: Name)

  // ----- a message as text -----

  const UNIQMARKER: char := 0xa0 as char
  const CONVERSD: string := "conversd"

  predicate IsText(m: Msg) {
    m.ChannelMsg? || m.PrivateMsg?
  }

  function Low(c: char): bv8 {
    (c as int % 0x100) as bv8
  }

  function Bytes(s: string): seq<bv8> {
    seq(|s|, i requires 0 <= i < |s| => Low(s[i]))
  }

  /** The line in which a message travels between hosts. */
  function HostText(m: Msg): string
    requires IsText(m)
  {
    ['/', 0xff as char, 0x80 as char]
    + (if m.ChannelMsg? then "CMSG " + m.from + " " + Signed(m.channel) + " " + m.text
       else "UMSG " + m.from + " " + m.to + " " + m.text)
    + "\n"
  }

  /** Its bytes, of which the digest is kept. */
  function HostLine(m: Msg): seq<bv8>
    requires IsText(m)
  {
    Bytes(HostText(m))
  }

  /** The text before the marker that made it unique. */
  function Shown(text: string): string {
    if text == "" || text[0] == UNIQMARKER then "" else [text[0]] + Shown(text[1..])
  }

  /** What a terminal shows. */
  function LineOf(m: Msg): Msg
    requires IsText(m)
  {
    if m.ChannelMsg? then Line("<" + m.from + ">:", Shown(m.text))
    else if m.from == CONVERSD then Line("", Shown(m.text))
    else Line("<*" + m.from + "*>:", Shown(m.text))
  }

  function AudienceOf(m: Msg): Audience
    requires IsText(m)
  {
    if m.ChannelMsg? then Channel(m.channel) else Person(m.to)
  }

  // ----- the copies -----

  predicate Wants(u: User, k: Key, a: Audience) {
    u.channel >= 0 && match a case Channel(c) => u.channel == c case Person(name) => k.name == name
  }

  /** What goes out on a link. */
  function Form(l: Link, m: Msg, line: Msg): Msg {
    if l.host.Some? then m else line
  }

  /** One turn of the loop over the users. In every run of a network the record of a
      user on a channel has a link that is there (ConversNetwork.NoNullLink), so the
      program, which reads the link at once, does the same. */
  function Copy(n: Node, k: Key, a: Audience, m: Msg, line: Msg): Node {
    if k in n.users && Wants(n.users[k], k, a) && n.users[k].link.Some? && n.users[k].link.value < |n.links|
       && !n.links[n.users[k].link.value].locked
    then Send(n, n.users[k].link.value, Form(n.links[n.users[k].link.value], m, line))
    else n
  }

  function CopyAll(n: Node, keys: seq<Key>, a: Audience, m: Msg, line: Msg): (r: Node)
    ensures |r.links| == |n.links|
    decreases keys
  {
    if keys == [] then n else CopyAll(Copy(n, keys[0], a, m, line), keys[1..], a, m, line)
  }

  /** A user who is meant is reached over link l. */
  ghost predicate LeadsTo(users: map<Key, User>, keys: seq<Key>, l: nat, a: Audience) {
    exists k :: k in keys && Over(users, k, l, a)
  }

  ghost predicate Over(users: map<Key, User>, k: Key, l: nat, a: Audience) {
    k in users && Wants(users[k], k, a) && users[k].link == Some(l)
  }

  ghost predicate CopyOn(l: Link, l': Link, leads: bool, m: Msg, line: Msg) {
    l' == if !l.locked && leads then SentTo(l, Form(l, m, line)) else l
  }

  /** Every link that leads to someone who is meant gets exactly one copy, unless
      it is locked, and no other link gets any. */
  ghost predicate OneCopyEach(n: Node, n': Node, a: Audience, m: Msg, line: Msg) {
    && n'.users == n.users && n'.order == n.order && n'.my == n.my && |n'.links| == |n.links|
    && forall l :: 0 <= l < |n.links| ==> CopyOn(n.links[l], n'.links[l], LeadsTo(n.users, n.order, l, a), m, line)
  }

  lemma {:induction false} CopiesAt(n: Node, keys: seq<Key>, a: Audience, m: Msg, line: Msg, l: nat)
    requires l < |n.links|
    ensures var n' := CopyAll(n, keys, a, m, line);
            && n'.users == n.users && n'.order == n.order && n'.my == n.my && |n'.links| == |n.links|
            && CopyOn(n.links[l], n'.links[l], LeadsTo(n.users, keys, l, a), m, line)
    decreases keys
  {
    hide Wants, Form;
    if keys != [] {
      var n1 := Copy(n, keys[0], a, m, line);
      CopiesAt(n1, keys[1..], a, m, line, l);
      LeadsToSplits(n.users, keys, l, a);
    }
  }

  lemma LeadsToSplits(users: map<Key, User>, keys: seq<Key>, l: nat, a: Audience)
    requires keys != []
    ensures LeadsTo(users, keys, l, a) <==> Over(users, keys[0], l, a) || LeadsTo(users, keys[1..], l, a)
  {
    hide Over;
    if LeadsTo(users, keys, l, a) {
      var k :| k in keys && Over(users, k, l, a);
      assert k == keys[0] || k in keys[1..];
    }
  }

  lemma CopiesAreOneEach(n: Node, a: Audience, m: Msg, line: Msg)
    ensures OneCopyEach(n, CopyAll(n, n.order, a, m, line), a, m, line)
  {
    hide CopyAll, CopyOn;
    if n.links != [] { CopiesAt(n, n.order, a, m, line, 0); } else { CopiesOnNone(n, n.order, a, m, line); }
    forall l | 0 <= l < |n.links|
      ensures CopyOn(n.links[l], CopyAll(n, n.order, a, m, line).links[l], LeadsTo(n.users, n.order, l, a), m, line)
    {
      CopiesAt(n, n.order, a, m, line, l);
    }
  }

  lemma {:induction false} CopiesOnNone(n: Node, keys: seq<Key>, a: Audience, m: Msg, line: Msg)
    requires n.links == []
    ensures CopyAll(n, keys, a, m, line) == n
    decreases keys
  {
    if keys != [] { CopiesOnNone(n, keys[1..], a, m, line); }
  }

  /** The link a line came in on gets no copy of it. */
  lemma NeverBack(n: Node, lp: nat, a: Audience, m: Msg, line: Msg)
    requires lp < |n.links|
    ensures CopyAll(Locked(n, lp), n.order, a, m, line).links[lp].sndq == n.links[lp].sndq
  {
    CopiesAt(Locked(n, lp), n.order, a, m, line, lp);
  }

  // ----- who gets which words -----

  /** What is before the first marker in the text, or all of it. */
  ghost predicate IsShown(text: string, shown: string) {
    && |shown| <= |text| && text[..|shown|] == shown && 0xa0 as char !in shown
    && (|shown| == |text| || text[|shown|] == 0xa0 as char)
  }

  lemma {:induction false} ShownIs(text: string)
    ensures IsShown(text, Shown(text))
  {
    if text != "" && text[0] != UNIQMARKER {
      ShownIs(text[1..]);
      var rest, all := Shown(text[1..]), Shown(text);
      assert all == [text[0]] + rest;
      assert text[..|all|] == [text[0]] + text[1..][..|rest|];
      assert |rest| < |text[1..]| ==> text[|all|] == text[1..][|rest|];
    }
  }

  /** The message is told on this link: the message itself to a host, to a terminal the
      text before the marker after these words. */
  ghost predicate Hears(l: Link, l': Link, m: Msg, prefix: string, text: string) {
    && l'.locked && l' == l.(sndq := l'.sndq, locked := true) && |l'.sndq| == |l.sndq| + 1
    && l'.sndq[..|l.sndq|] == l.sndq
    && if l.host.Some? then l'.sndq[|l.sndq|] == m
       else l'.sndq[|l.sndq|].Line? && l'.sndq[|l.sndq|].prefix == prefix && IsShown(text, l'.sndq[|l.sndq|].text)
  }

  ghost predicate OnChannel(n: Node, k: Key, channel: int, l: nat) {
    k in n.users && n.users[k].channel == channel && channel >= 0 && n.users[k].link == Some(l)
  }

  /** A message for a channel goes once to every link that is not locked over which
      someone on that channel is reached, and to no other. */
  lemma ChannelHears(n: Node, n': Node, from: Name, channel: int, text: string, l: nat)
    requires Listed(n) && l < |n.links|
    requires var m := ChannelMsg(from, channel, text); OneCopyEach(n, n', AudienceOf(m), m, LineOf(m))
    ensures |n'.links| == |n.links| && n'.users == n.users
    ensures if !n.links[l].locked && exists k :: OnChannel(n, k, channel, l)
            then Hears(n.links[l], n'.links[l], ChannelMsg(from, channel, text), "<" + from + ">:", text)
            else n'.links[l] == n.links[l]
  {
    var m := ChannelMsg(from, channel, text);
    ShownIs(text);
    assert CopyOn(n.links[l], n'.links[l], LeadsTo(n.users, n.order, l, AudienceOf(m)), m, LineOf(m));
    forall k ensures OnChannel(n, k, channel, l) <==> k in n.order && Over(n.users, k, l, AudienceOf(m)) {}
  }

  ghost predicate IsUser(n: Node, k: Key, name: Name, l: nat) {
    k in n.users && k.name == name && n.users[k].channel >= 0 && n.users[k].link == Some(l)
  }

  /** A message for a user goes to every user of that name who is on a channel, at
      whatever host. What comes from the daemon is shown without a name. */
  lemma UserHears(n: Node, n': Node, from: Name, to: Name, text: string, l: nat)
    requires Listed(n) && l < |n.links|
    requires var m := PrivateMsg(from, to, text); OneCopyEach(n, n', AudienceOf(m), m, LineOf(m))
    ensures |n'.links| == |n.links| && n'.users == n.users
    ensures if !n.links[l].locked && exists k :: IsUser(n, k, to, l)
            then Hears(n.links[l], n'.links[l], PrivateMsg(from, to, text),
                       if from == "conversd" then "" else "<*" + from + "*>:", text)
            else n'.links[l] == n.links[l]
  {
    var m := PrivateMsg(from, to, text);
    ShownIs(text);
    assert CopyOn(n.links[l], n'.links[l], LeadsTo(n.users, n.order, l, AudienceOf(m)), m, LineOf(m));
    forall k ensures IsUser(n, k, to, l) <==> k in n.order && Over(n.users, k, l, AudienceOf(m)) {}
  }

  // ----- a line tells its message -----

  /** A character of one byte is written as that byte. */
  lemma ByteOfChar(c: char)
    requires (c as int) < 0x100
    ensures Low(c) == (c as int) as bv8
  {
    var n := c as int;
    assert n % 0x100 == n;
  }

  /** Names have no blanks. */
  ghost predicate Writable(m: Msg) {
    IsText(m) && ' ' !in m.from && (m.PrivateMsg? ==> ' ' !in m.to)
  }

  lemma FirstBlank(a: string, s: string, b: string, t: string)
    requires ' ' !in a && ' ' !in b && a + " " + s == b + " " + t
    ensures a == b && s == t
  {
    var w := a + " " + s;
    assert w[|a|] == ' ' && w[|b|] == ' ';
    assert forall i :: 0 <= i < |a| ==> w[i] == a[i];
    assert forall i :: 0 <= i < |b| ==> w[i] == b[i];
    assert w[..|a|] == a && w[..|b|] == b;
    assert w[|a| + 1..] == s && w[|b| + 1..] == t;
  }

  /** What follows the code of the command in the line of a message. */
  function Words(m: Msg): string
    requires IsText(m)
  {
    m.from + " " + ((if m.ChannelMsg? then Signed(m.channel) else m.to) + " " + m.text)
  }

  lemma LineIs(m: Msg)
    requires IsText(m)
    ensures var l := HostText(m);
            |l| > 8 && l[3] == (if m.ChannelMsg? then 'C' else 'U') && l[8..|l| - 1] == Words(m)
  {
    hide Signed;
    var code := if m.ChannelMsg? then "CMSG " else "UMSG ";
    assert HostText(m) == ['/', 0xff as char, 0x80 as char] + code + Words(m) + "\n";
  }

  /** Two messages that travel as the same line are the same message: what the digest of
      the line suppresses was said before, by the same user to the same people. */
  lemma LineTellsAll(m: Msg, m': Msg)
    requires Writable(m) && Writable(m') && HostText(m) == HostText(m')
    ensures m == m'
  {
    hide HostText, Signed;
    LineIs(m);
    LineIs(m');
    var to := if m.ChannelMsg? then Signed(m.channel) else m.to;
    var to' := if m'.ChannelMsg? then Signed(m'.channel) else m'.to;
    if m.ChannelMsg? { SignedHasNo(m.channel, ' '); }
    if m'.ChannelMsg? { SignedHasNo(m'.channel, ' '); }
    FirstBlank(m.from, to + " " + m.text, m'.from, to' + " " + m'.text);
    FirstBlank(to, m.text, to', m'.text);
    if m.ChannelMsg? { SignedIsUnique(m.channel, m'.channel); }
  }
}
