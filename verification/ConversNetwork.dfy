/** A network of convers hosts: what every run without the loss of a link keeps,
    and what the hosts have come to agree on once it is quiet. */
module ConversNetwork {
  import opened Options
  import opened ConversNode
  import opened ConversLinks
  import opened ConversSteps

  datatype End = End(host: Name, link: nat)

  /** One direction of a connection; what is in flight is the send queue at `from`. */
  datatype Wire = Wire(from: End, to: End)

  /** log holds every state a home host ever gave one of its users. */
  datatype Net = Net(nodes: map<Name, Node>, wires: seq<Wire>, log: map<Version, Value>)

  /** Host starts a host; Terminal brings it a terminal, Connect two hosts a
      connection that a opens. The next four are what users do. Deliver is the
      arrival of the first line of a queue. */
  datatype Event =
    | Start(host: Name)
    | Terminal(host: Name)
    | Connect(a: Name, b: Name)
    | DoName(host: Name, lp: nat, name: Name, channel: int, note: string, best: map<Name, nat>, now: int)
    | DoChannel(host: Name, lp: nat, channel: int, now: int)
    | DoNote(host: Name, lp: nat, note: string, now: int)
    | Hangup(host: Name, lp: nat, best: map<Name, nat>, now: int)
    | Deliver(w: nat, best: map<Name, nat>, now: int)

  function Rev(w: nat): nat {
    if w % 2 == 0 then w + 1 else w - 1
  }

  /** The end is one of a connection between hosts. */
  predicate Wired(net: Net, e: End) {
    exists w :: 0 <= w < |net.wires| && net.wires[w].from == e
  }

  predicate IsTerminal(net: Net, h: Name, lp: nat) {
    && h in net.nodes && lp < |net.nodes[h].links| && net.nodes[h].links[lp].open
    && net.nodes[h].links[lp].host.None? && !Wired(net, End(h, lp))
  }

  predicate Enabled(net: Net, e: Event) {
    match e
    case Start(h) => h !in net.nodes && h != ""
    case Terminal(h) => h in net.nodes
    case Connect(a, b) =>
      a in net.nodes && b in net.nodes && a != b && forall w :: 0 <= w < |net.wires| ==> !Joins(net.wires[w], a, b)
    case DoName(h, lp, name, _, _, _, _) => IsTerminal(net, h, lp) && net.nodes[h].links[lp].user.None? && name != ""
    case DoChannel(h, lp, _, _) => IsTerminal(net, h, lp) && net.nodes[h].links[lp].user.Some?
    case DoNote(h, lp, _, _) => IsTerminal(net, h, lp) && net.nodes[h].links[lp].user.Some?
    case Hangup(h, lp, best, _) => IsTerminal(net, h, lp) && h !in best
    case Deliver(w, _, _) =>
      && w < |net.wires| && net.wires[w].from.host in net.nodes && net.wires[w].to.host in net.nodes
      && net.wires[w].from.link < |net.nodes[net.wires[w].from.host].links|
      && net.wires[w].to.link < |net.nodes[net.wires[w].to.host].links|
      && Queue(net, w) != [] && (Queue(net, w)[0].HostMsg? || Queue(net, w)[0].UserMsg?)
  }

  predicate Joins(w: Wire, a: Name, b: Name) {
    w.from.host == a && w.to.host == b
  }

  function Queue(net: Net, w: nat): seq<Msg>
    requires w < |net.wires| && net.wires[w].from.host in net.nodes
    requires net.wires[w].from.link < |net.nodes[net.wires[w].from.host].links|
  {
    net.nodes[net.wires[w].from.host].links[net.wires[w].from.link].sndq
  }

  function WithNode(net: Net, h: Name, n: Node): Net {
    net.(nodes := net.nodes[h := n])
  }

  function WithLink(net: Net, h: Name, l: Link): Net
    requires h in net.nodes
  {
    WithNode(net, h, net.nodes[h].(links := net.nodes[h].links + [l]))
  }

  /** A command by the user k, or on behalf of k, of host h. */
  function Commanded(net: Net, h: Name, n: Node, k: Key): Net
    requires h in net.nodes
  {
    WithNode(net, h, n).(log := Recorded(net.log, net.nodes[h], n, k))
  }

  /** The user of a terminal. */
  function UserOf(net: Net, h: Name, lp: nat): Key
    requires h in net.nodes && lp < |net.nodes[h].links|
  {
    if net.nodes[h].links[lp].user.Some? then net.nodes[h].links[lp].user.value else Key("", h)
  }

  function Connected(net: Net, a: Name, b: Name): Net
    requires a in net.nodes && b in net.nodes
  {
    var ea, eb := End(a, |net.nodes[a].links|), End(b, |net.nodes[b].links|);
    var net1 := WithLink(net, a, SentTo(NewLink, HostMsg(net.nodes[a].my)));
    var net2 := WithLink(net1, b, NewLink);
    net2.(wires := net2.wires + [Wire(ea, eb), Wire(eb, ea)])
  }

  function Heard(net: Net, w: nat, best: map<Name, nat>, now: int): Net
    requires Enabled(net, Deliver(w, best, now))
  {
    var to := net.wires[w].to;
    WithNode(net, to.host, Input(net.nodes[to.host], to.link, Queue(net, w)[0], best, now))
  }

  function Taken(net: Net, w: nat): Net
    requires w < |net.wires| && net.wires[w].from.host in net.nodes
    requires net.wires[w].from.link < |net.nodes[net.wires[w].from.host].links| && Queue(net, w) != []
  {
    var from := net.wires[w].from;
    WithNode(net, from.host, Popped(net.nodes[from.host], from.link))
  }

  /** The receiver acts on the line and it leaves the queue of the sender,
      another host. */
  function Delivered(net: Net, w: nat, best: map<Name, nat>, now: int): Net
    requires Enabled(net, Deliver(w, best, now)) && net.wires[w].from.host != net.wires[w].to.host
  {
    Taken(Heard(net, w, best, now), w)
  }

  ghost function Step(net: Net, e: Event): Net
    requires Inv(net) && Enabled(net, e)
  {
    match e
    case Start(h) => WithNode(net, h, Node(h, map[], [], []))
    case Terminal(h) => WithLink(net, h, NewLink)
    case Connect(a, b) => Connected(net, a, b)
    case DoName(h, lp, name, channel, note, best, now) =>
      Commanded(net, h, NameCommand(Locked(net.nodes[h], lp), lp, name, channel, note, best, now), Key(name, h))
    case DoChannel(h, lp, channel, now) =>
      Commanded(net, h, ChannelCommand(Locked(net.nodes[h], lp), lp, UserOf(net, h, lp), channel, now),
          UserOf(net, h, lp))
    case DoNote(h, lp, note, now) =>
      Commanded(net, h, NoteCommand(Locked(net.nodes[h], lp), lp, UserOf(net, h, lp), note, now), UserOf(net, h, lp))
    case Hangup(h, lp, best, now) =>
      Commanded(net, h, CloseLink(net.nodes[h], lp, best, now), UserOf(net, h, lp))
    case Deliver(w, best, now) =>
      assert WireOk(net, w);
      Delivered(net, w, best, now)
  }

  // ----- the invariant -----

  ghost predicate WireOk(net: Net, w: nat) {
    && w < |net.wires|
    && var f, t := net.wires[w].from, net.wires[w].to;
    && f.host in net.nodes && t.host in net.nodes && f.host != t.host
    && Rev(w) < |net.wires| && net.wires[Rev(w)] == Wire(t, f)
    && DirOk(net.log, net.nodes[f.host], f.link, net.nodes[t.host], t.link)
  }

  ghost predicate HostOk(net: Net, h: Name) {
    && h in net.nodes && h != "" && net.nodes[h].my == h && NodeOk(net.log, net.nodes[h])
    && forall i :: 0 <= i < |net.nodes[h].links| && net.nodes[h].links[i].host.Some? ==> Wired(net, End(h, i))
  }

  ghost predicate VersionOk(net: Net, v: Version) {
    v.key.host in net.nodes && 1 <= v.seqno <= Seqno(net.nodes[v.key.host], v.key)
  }

  ghost predicate Simple(wires: seq<Wire>) {
    && |wires| % 2 == 0
    && forall w, v :: 0 <= w < v < |wires| ==>
         wires[w].from != wires[v].from && !Joins(wires[w], wires[v].from.host, wires[v].to.host)
  }

  ghost predicate Inv(net: Net) {
    && (forall h :: h in net.nodes ==> HostOk(net, h))
    && (forall w :: 0 <= w < |net.wires| ==> WireOk(net, w))
    && Simple(net.wires)
    && (forall v :: v in net.log ==> VersionOk(net, v))
  }

  const Empty := Net(map[], [], map[])

  // ----- one host takes a step -----

  lemma LogOnly(log: map<Version, Value>, log': map<Version, Value>, from: Node, i: nat, to: Node, j: nat)
    requires DirOk(log, from, i, to, j) && LogGrows(log, log')
    ensures DirOk(log', from, i, to, j)
  {
    hide MsgOk, LogGrows, Informed;
    forall x | 0 <= x < |from.links[i].sndq| ensures MsgOk(log', from, from.links[i].sndq[x]) {
      MsgStaysOk(log, log', from, from, from.links[i].sndq[x]);
    }
  }

  /** What a wire asks of a step at h. */
  ghost predicate EndSteps(net: Net, log': map<Version, Value>, h: Name, n': Node, w: nat, told: bool)
    requires WireOk(net, w) && h in net.nodes
  {
    var f, t := net.wires[w].from, net.wires[w].to;
    && (f.host == h ==>
          && WiredStep(log', net.nodes[h], n', f.link, net.nodes[t.host].my, told)
          && (told || forall k ::
               Seqno(n', k) == Seqno(net.nodes[h], k) || Seqno(n', k) <= Seqno(net.nodes[t.host], k)))
    && (t.host == h ==> WiredStep(log', net.nodes[h], n', t.link, net.nodes[f.host].my, told))
  }

  lemma WireKept(net: Net, log': map<Version, Value>, h: Name, n': Node, w: nat, told: bool)
    requires WireOk(net, w) && h in net.nodes && LogGrows(net.log, log') && Rises(net.nodes[h], n')
    requires EndSteps(net, log', h, n', w, told)
    requires NodeOk(net.log, net.nodes[net.wires[w].to.host])
    ensures WireOk(net.(nodes := net.nodes[h := n'], log := log'), w)
  {
    hide DirOk, WiredStep, NodeOk, LogGrows, Seqno;
    var f, t := net.wires[w].from, net.wires[w].to;
    if f.host == h {
      forall k ensures Seqno(net.nodes[t.host], k) >= 0 { SeqnoOf2(net.nodes[t.host], k, net.log); }
      FromSteps(net.log, log', net.nodes[h], n', f.link, net.nodes[t.host], t.link, told);
    } else if t.host == h {
      ToSteps(net.log, log', net.nodes[f.host], f.link, net.nodes[h], n', t.link, net.nodes[f.host].my, told);
    } else {
      LogOnly(net.log, log', net.nodes[f.host], f.link, net.nodes[t.host], t.link);
    }
  }

  lemma SeqnoOf2(n: Node, k: Key, log: map<Version, Value>)
    requires NodeOk(log, n)
    ensures Seqno(n, k) >= 0
  {
    SeqnoOf(n, k, log);
  }

  lemma NodeLogGrows(log: map<Version, Value>, log': map<Version, Value>, n: Node)
    requires NodeOk(log, n) && LogGrows(log, log')
    ensures NodeOk(log', n)
  {
    forall k | k in n.users ensures EntryOk(log', n, k) {
      assert EntryOk(log, n, k);
    }
  }

  /** The hosts after a step at h that leaves its links where they are. */
  lemma HostsKept(net: Net, log': map<Version, Value>, h: Name, n': Node)
    requires Inv(net) && h in net.nodes && LogGrows(net.log, log') && NodeOk(log', n') && n'.my == h
    requires forall i :: 0 <= i < |n'.links| && n'.links[i].host.Some? ==> Wired(net, End(h, i))
    ensures var net' := net.(nodes := net.nodes[h := n'], log := log');
            forall g :: g in net'.nodes ==> HostOk(net', g)
  {
    hide NodeOk, LogGrows;
    var net' := net.(nodes := net.nodes[h := n'], log := log');
    forall g | g in net'.nodes ensures HostOk(net', g) {
      forall i | 0 <= i < |net'.nodes[g].links| && net'.nodes[g].links[i].host.Some? ensures Wired(net', End(g, i)) {
        if g != h { assert HostOk(net, g); }
        var w :| 0 <= w < |net.wires| && net.wires[w].from == End(g, i);
        assert net'.wires[w].from == End(g, i);
      }
      if g != h {
        assert HostOk(net, g);
        NodeLogGrows(net.log, log', net.nodes[g]);
      }
    }
  }

  /** The log after a step at h that does not touch versions known before. */
  lemma VersionsKept(net: Net, h: Name, n': Node, log': map<Version, Value>)
    requires Inv(net) && h in net.nodes && Rises(net.nodes[h], n')
    requires forall v :: v in log' ==> v in net.log || (v.key.host == h && 1 <= v.seqno <= Seqno(n', v.key))
    ensures var net' := net.(nodes := net.nodes[h := n'], log := log');
            forall v :: v in log' ==> VersionOk(net', v)
  {
    hide HostOk, WireOk, Simple, Seqno;
    var net' := net.(nodes := net.nodes[h := n'], log := log');
    forall v | v in log' ensures VersionOk(net', v) {
      if v in net.log { assert VersionOk(net, v); }
    }
  }

  lemma HomeIsNewest(net: Net, h: Name, k: Key)
    requires Inv(net) && h in net.nodes && k.host == h
    ensures Newest(net.log, net.nodes[h], k)
  {
    hide WireOk, Simple, Seqno, NodeOk;
    assert HostOk(net, h);
    forall v | v in net.log && v.key == k ensures v.seqno <= Seqno(net.nodes[h], k) {
      assert VersionOk(net, v);
    }
  }

  /** No host forgets a version. */
  ghost predicate Risen(net: Net, net': Net) {
    forall h :: h in net.nodes ==> h in net'.nodes && Rises(net.nodes[h], net'.nodes[h])
  }

  // ----- commands -----

  lemma CommandKeeps(net: Net, h: Name, lp: nat, n': Node, k: Key)
    requires Inv(net) && IsTerminal(net, h, lp) && k.host == h
    requires CommandOk(net.log, net.nodes[h], n', lp, k)
    ensures Inv(Commanded(net, h, n', k)) && Risen(net, Commanded(net, h, n', k))
  {
    hide HostOk, Simple, Seqno, NodeOk, WireOk, WiredStep, LogGrows, VersionOk, Wired;
    var n := net.nodes[h];
    var log' := Recorded(net.log, n, n', k);
    var net' := Commanded(net, h, n', k);
    assert net' == net.(nodes := net.nodes[h := n'], log := log');
    forall w | 0 <= w < |net.wires| ensures WireOk(net', w) {
      assert WireOk(net, w);
      TerminalStep(net, log', h, lp, n', w);
      WireKept(net, log', h, n', w, true);
    }
    HostOf(net, h);
    forall i | 0 <= i < |n'.links| && n'.links[i].host.Some? ensures Wired(net, End(h, i)) {
      assert OtherLink(log', n, n', i);
      HostLinkIsWired(net, h, i);
    }
    HostsKept(net, log', h, n');
    RisesAbove(net, h, n', k);
    VersionsKept(net, h, n', log');
  }

  lemma HostOf(net: Net, h: Name)
    requires Inv(net) && h in net.nodes
    ensures net.nodes[h].my == h && h != "" && NodeOk(net.log, net.nodes[h])
  {
    assert HostOk(net, h);
  }

  lemma HostLinkIsWired(net: Net, h: Name, i: nat)
    requires Inv(net) && h in net.nodes && i < |net.nodes[h].links| && net.nodes[h].links[i].host.Some?
    ensures Wired(net, End(h, i))
  {
    assert HostOk(net, h);
  }

  lemma RisesAbove(net: Net, h: Name, n': Node, k: Key)
    requires Inv(net) && h in net.nodes && Rises(net.nodes[h], n')
    ensures forall v :: v in Recorded(net.log, net.nodes[h], n', k) ==>
              v in net.log || (v.key == k && 1 <= v.seqno <= Seqno(n', v.key))
  {
    hide Seqno, NodeOk;
    HostOf(net, h);
    SeqnoOf2(net.nodes[h], k, net.log);
  }

  /** A step for a terminal as seen from a wire. */
  lemma TerminalStep(net: Net, log': map<Version, Value>, h: Name, lp: nat, n': Node, w: nat)
    requires Inv(net) && w < |net.wires| && h in net.nodes && !Wired(net, End(h, lp))
    requires StepOk(log', net.nodes[h], n', lp)
    ensures WireOk(net, w) && EndSteps(net, log', h, n', w, true)
    ensures NodeOk(net.log, net.nodes[net.wires[w].to.host])
  {
    hide Seqno, NodeOk, Simple;
    assert WireOk(net, w) && WireOk(net, Rev(w));
    var f, t := net.wires[w].from, net.wires[w].to;
    HostOf(net, t.host);
    if f.host == h {
      assert f.link != lp;
      assert OtherLink(log', net.nodes[h], n', f.link);
      AnyPeer(log', net.nodes[h], n', f.link, net.nodes[t.host].my);
    }
    if t.host == h {
      assert net.wires[Rev(w)].from == t;
      assert t.link != lp;
      assert OtherLink(log', net.nodes[h], n', t.link);
      AnyPeer(log', net.nodes[h], n', t.link, net.nodes[f.host].my);
    }
  }

  lemma AnyPeer(log': map<Version, Value>, n: Node, n': Node, i: nat, peer: Name)
    requires WiredStep(log', n, n', i, "", true) && n'.links[i].host == n.links[i].host
    ensures WiredStep(log', n, n', i, peer, true)
  {
    hide MsgOk;
  }

  // ----- delivery -----

  /** No other link of the receiver leads to the sender. */
  lemma NoOtherLink(net: Net, w: nat)
    requires Inv(net) && w < |net.wires|
    ensures WireOk(net, w)
    ensures var f, t := net.wires[w].from, net.wires[w].to; var n := net.nodes[t.host];
            forall j :: 0 <= j < |n.links| && j != t.link ==> n.links[j].host != Some(f.host)
  {
    hide Seqno, NodeOk;
    assert WireOk(net, w);
    var f, t := net.wires[w].from, net.wires[w].to;
    var n := net.nodes[t.host];
    forall j | 0 <= j < |n.links| && j != t.link ensures n.links[j].host != Some(f.host) {
      if n.links[j].host == Some(f.host) {
        HostLinkIsWired(net, t.host, j);
        var v :| 0 <= v < |net.wires| && net.wires[v].from == End(t.host, j);
        assert WireOk(net, v);
        HostOf(net, net.wires[v].to.host);
        assert Joins(net.wires[v], t.host, f.host) && Joins(net.wires[Rev(w)], t.host, f.host);
        assert v != Rev(w);
        OneWire(net.wires, v, Rev(w), t.host, f.host);
      }
    }
  }

  lemma OneWire(wires: seq<Wire>, w: nat, v: nat, a: Name, b: Name)
    requires Simple(wires) && w < |wires| && v < |wires| && Joins(wires[w], a, b) && Joins(wires[v], a, b)
    ensures w == v
  {
  }

  /** What the receiver makes of the first line of a queue. */
  lemma InputKeeps(net: Net, w: nat, best: map<Name, nat>, now: int) returns (told: bool)
    requires Inv(net) && Enabled(net, Deliver(w, best, now))
    ensures WireOk(net, w)
    ensures var f, t := net.wires[w].from, net.wires[w].to;
            var n, m := net.nodes[t.host], Queue(net, w)[0];
            var n' := Input(n, t.link, m, best, now);
            && StepOk(net.log, n, n', t.link) && WiredStep(net.log, n, n', t.link, f.host, told)
            && (told || forall k :: Seqno(n', k) == Seqno(n, k) || Seqno(n', k) <= Seqno(net.nodes[f.host], k))
            && n'.links[t.link].host.Some?
            && (m.UserMsg? ==> m.seqno <= Seqno(n', m.key))
            && (m.UserMsg? && m.key.host == n.my ==> m.seqno <= Seqno(n, m.key))
            && forall k :: Lookup(n', k) == Lookup(n, k)
                 || (m.UserMsg? && m.key == k && m.seqno > Seqno(n, k) && Seqno(n', k) == m.seqno && k.host != n.my)
  {
    hide NodeOk, OtherLink, WiredStep, Locked, HUser, HHost, Knows, Simple, Informed;
    NoOtherLink(net, w);
    var f, t := net.wires[w].from, net.wires[w].to;
    var n, m := net.nodes[t.host], Queue(net, w)[0];
    HostOf(net, t.host);
    HostOf(net, f.host);
    assert WireOk(net, Rev(w));
    assert MsgOk(net.log, net.nodes[f.host], m);
    LockedIs(n, t.link);
    told := true;
    if n.links[t.link].host.None? {
      HHostKeeps(net.log, n, t.link, f.host, best, now);
    } else if m.UserMsg? {
      GenuineHere(net, w, best, now);
      HUserKeeps(net.log, n, t.link, m, now);
      told := false;
      QuietAnyPeer(net.log, n, HUser(Locked(n, t.link), t.link, m, now), t.link, f.host);
      HeardOnly(n, HUser(Locked(n, t.link), t.link, m, now), m);
    } else {
      LockedKeeps(net.log, n, t.link, f.host);
    }
  }

  lemma HeardOnly(n: Node, n': Node, m: Msg)
    requires m.UserMsg?
    requires m.seqno > Seqno(n, m.key) ==> OnlyChanged(n, n', m.key, Lookup(n', m.key)) && Seqno(n', m.key) == m.seqno
    requires m.seqno <= Seqno(n, m.key) ==> forall k :: Lookup(n', k) == Lookup(n, k)
    ensures m.seqno <= Seqno(n', m.key)
    ensures forall k :: Lookup(n', k) == Lookup(n, k)
              || (m.key == k && m.seqno > Seqno(n, k) && Seqno(n', k) == m.seqno)
  {
    if m.seqno > Seqno(n, m.key) {
      SeqnosOf(n, n', m.key, Lookup(n', m.key));
    }
  }

  lemma GenuineHere(net: Net, w: nat, best: map<Name, nat>, now: int)
    requires Inv(net) && Enabled(net, Deliver(w, best, now)) && Queue(net, w)[0].UserMsg?
    ensures Genuine(net.log, net.nodes[net.wires[w].to.host], Queue(net, w)[0])
  {
    hide NodeOk, Simple, Informed;
    assert WireOk(net, w);
    var m := Queue(net, w)[0];
    assert MsgOk(net.log, net.nodes[net.wires[w].from.host], m);
    assert VersionOk(net, Version(m.key, m.seqno));
    HostOf(net, net.wires[w].to.host);
  }

  lemma QuietAnyPeer(log: map<Version, Value>, n: Node, n': Node, i: nat, peer: Name)
    requires i < |n.links| && i < |n'.links| && Bare(n'.links[i]) == Bare(n.links[i]) && n.links[i].host.Some?
    ensures WiredStep(log, n, n', i, peer, false)
    ensures (forall k :: Seqno(n', k) == Seqno(n, k)) ==> WiredStep(log, n, n', i, peer, true)
  {
    hide Seqno, MsgOk;
  }

  /** A line that is ignored. */
  lemma LockedKeeps(log: map<Version, Value>, n: Node, lp: nat, peer: Name)
    requires NodeOk(log, n) && lp < |n.links| && n.links[lp].host.Some?
    ensures StepOk(log, n, Locked(n, lp), lp) && WiredStep(log, n, Locked(n, lp), lp, peer, true)
    ensures forall k :: Lookup(Locked(n, lp), k) == Lookup(n, k)
  {
    hide RecordOk, WiredStep, Locked;
    LockedIs(n, lp);
    var n' := Locked(n, lp);
    forall x | x in n'.users ensures EntryOk(log, n', x) {
      assert EntryOk(log, n, x);
    }
    forall i | 0 <= i < |n.links| ensures LinkOk(n'.my, n'.links[i]) && TerminalOk(n', i) {
      assert LinkOk(n.my, n.links[i]) && TerminalOk(n, i);
    }
    forall x ensures Lookup(n', x) == Lookup(n, x) {}
    forall i | 0 <= i < |n.links| && i != lp ensures OtherLink(log, n, n', i) {
      QuietOn(log, n, n', i);
    }
    QuietAnyPeer(log, n, n', lp, peer);
  }

  /** The receiver of the wire knows the sender and what the line told it. */
  ghost predicate ActedOn(net: Net, w: nat, m: Msg) {
    && WireOk(net, w)
    && var t := net.wires[w].to;
    && net.nodes[t.host].links[t.link].host.Some?
    && (m.UserMsg? ==> m.seqno <= Seqno(net.nodes[t.host], m.key))
  }

  lemma HeardKeeps(net: Net, w: nat, best: map<Name, nat>, now: int)
    requires Inv(net) && Enabled(net, Deliver(w, best, now))
    ensures Inv(Heard(net, w, best, now)) && Risen(net, Heard(net, w, best, now))
    ensures ActedOn(Heard(net, w, best, now), w, Queue(net, w)[0])
  {
    hide NodeOk, WiredStep, HostOk, Simple, Seqno, LogGrows, DirOk, VersionOk, Input, Wired;
    var told := InputKeeps(net, w, best, now);
    GrowsTrivially(net.log);
    var f, t := net.wires[w].from, net.wires[w].to;
    var h, n := t.host, net.nodes[t.host];
    var n' := Input(n, t.link, Queue(net, w)[0], best, now);
    var net' := Heard(net, w, best, now);
    assert net' == net.(nodes := net.nodes[h := n'], log := net.log);
    forall v | 0 <= v < |net.wires| ensures WireOk(net', v) {
      var tv := ReceiverStep(net, h, t.link, n', v, w, told);
      WireKept(net, net.log, h, n', v, tv);
    }
    HostOf(net, h);
    forall i | 0 <= i < |n'.links| && n'.links[i].host.Some? ensures Wired(net, End(h, i)) {
      if i == t.link {
        assert WireOk(net, Rev(w));
        IsWired(net, Rev(w));
      } else {
        assert OtherLink(net.log, n, n', i);
        HostLinkIsWired(net, h, i);
      }
    }
    HostsKept(net, net.log, h, n');
    VersionsKept(net, h, n', net.log);
    assert WireOk(net', w);
  }

  lemma IsWired(net: Net, w: nat)
    requires w < |net.wires|
    ensures Wired(net, net.wires[w].from)
  {
  }

  lemma ReceiverStep(net: Net, h: Name, lp: nat, n': Node, v: nat, w: nat, told: bool) returns (tv: bool)
    requires Inv(net) && v < |net.wires| && w < |net.wires| && net.wires[w].to == End(h, lp) && WireOk(net, w)
    requires StepOk(net.log, net.nodes[h], n', lp)
    requires WiredStep(net.log, net.nodes[h], n', lp, net.wires[w].from.host, told)
    requires told || forall k ::
               Seqno(n', k) == Seqno(net.nodes[h], k) || Seqno(n', k) <= Seqno(net.nodes[net.wires[w].from.host], k)
    ensures WireOk(net, v) && EndSteps(net, net.log, h, n', v, tv)
    ensures NodeOk(net.log, net.nodes[net.wires[v].to.host])
  {
    hide Seqno, NodeOk, Simple, DirOk;
    assert WireOk(net, v) && WireOk(net, Rev(v)) && WireOk(net, Rev(w));
    var f, t := net.wires[v].from, net.wires[v].to;
    HostOf(net, t.host);
    HostOf(net, f.host);
    tv := true;
    if f.host == h {
      if f.link == lp {
        OneFrom(net.wires, v, Rev(w));
        tv := told;
      } else {
        WireEnd(net, v);
        assert OtherLink(net.log, net.nodes[h], n', f.link);
        AnyPeer(net.log, net.nodes[h], n', f.link, t.host);
      }
    }
    if t.host == h {
      if t.link == lp {
        OneFrom(net.wires, Rev(v), Rev(w));
        tv := told;
      } else {
        WireEnd(net, Rev(v));
        assert OtherLink(net.log, net.nodes[h], n', t.link);
        AnyPeer(net.log, net.nodes[h], n', t.link, f.host);
      }
    }
  }

  lemma WireEnd(net: Net, v: nat)
    requires WireOk(net, v)
    ensures var f := net.wires[v].from; f.link < |net.nodes[f.host].links| && net.nodes[f.host].links[f.link].user.None?
  {
  }

  lemma OneFrom(wires: seq<Wire>, w: nat, v: nat)
    requires Simple(wires) && w < |wires| && v < |wires| && wires[w].from == wires[v].from
    ensures w == v
  {
  }

  // ----- the line leaves the queue -----

  lemma PoppedIs(log: map<Version, Value>, n: Node, i: nat)
    requires NodeOk(log, n) && i < |n.links| && n.links[i].sndq != []
    ensures var n' := Popped(n, i);
            && NodeOk(log, n') && Rises(n, n') && n'.my == n.my && |n'.links| == |n.links|
            && (forall k :: Seqno(n', k) == Seqno(n, k))
            && (forall x :: 0 <= x < |n.links| ==> n'.links[x].host == n.links[x].host)
            && (forall x, p :: 0 <= x < |n.links| && x != i && n.links[x].host.Some? ==>
                 WiredStep(log, n, n', x, p, true))
            && (forall x, p :: 0 <= x < |n.links| && x != i && n.links[x].host.None? ==>
                 WiredStep(log, n, n', x, p, true))
  {
    hide RecordOk, MsgOk;
    var n' := Popped(n, i);
    forall k ensures Lookup(n', k) == Lookup(n, k) {}
    forall x | x in n'.users ensures EntryOk(log, n', x) {
      assert EntryOk(log, n, x);
    }
    forall x | 0 <= x < |n.links| ensures LinkOk(n'.my, n'.links[x]) && TerminalOk(n', x) {
      assert LinkOk(n.my, n.links[x]) && TerminalOk(n, x);
    }
  }

  lemma TakenKeeps(net: Net, w: nat)
    requires Inv(net) && w < |net.wires| && WireOk(net, w) && Queue(net, w) != [] && ActedOn(net, w, Queue(net, w)[0])
    ensures Inv(Taken(net, w)) && Risen(net, Taken(net, w))
  {
    hide NodeOk, WiredStep, HostOk, Simple, Seqno, LogGrows, DirOk, VersionOk, Popped, Wired;
    var f, t := net.wires[w].from, net.wires[w].to;
    var h, n := f.host, net.nodes[f.host];
    WireEnd(net, w);
    HostOf(net, h);
    HostOf(net, t.host);
    PoppedIs(net.log, n, f.link);
    GrowsTrivially(net.log);
    var n' := Popped(n, f.link);
    var net' := Taken(net, w);
    assert net' == net.(nodes := net.nodes[h := n'], log := net.log);
    assert WireOk(net, Rev(w));
    PopKeeps(net.log, n, f.link, net.nodes[t.host], t.link);
    forall v | 0 <= v < |net.wires| ensures WireOk(net', v) {
      assert WireOk(net, v) && WireOk(net, Rev(v));
      WireEnd(net, v);
      WireEnd(net, Rev(v));
      if v != w && v != Rev(w) {
        HostOf(net, net.wires[v].to.host);
        HostOf(net, net.wires[v].from.host);
        if net.wires[v].from.host == h && net.wires[v].from.link == f.link { OneFrom(net.wires, v, w); }
        if net.wires[v].to.host == h && net.wires[v].to.link == f.link { OneFrom(net.wires, Rev(v), w); }
        WireKept(net, net.log, h, n', v, true);
      }
    }
    forall i | 0 <= i < |n'.links| && n'.links[i].host.Some? ensures Wired(net, End(h, i)) {
      HostLinkIsWired(net, h, i);
    }
    HostsKept(net, net.log, h, n');
    VersionsKept(net, h, n', net.log);
  }

  lemma DeliverKeeps(net: Net, w: nat, best: map<Name, nat>, now: int)
    requires Inv(net) && Enabled(net, Deliver(w, best, now)) && WireOk(net, w)
    ensures Inv(Delivered(net, w, best, now)) && Risen(net, Delivered(net, w, best, now))
  {
    hide NodeOk, WiredStep, HostOk, Simple, Seqno, DirOk, VersionOk, Popped, Input, Wired;
    HeardKeeps(net, w, best, now);
    var net' := Heard(net, w, best, now);
    assert WireOk(net', w);
    assert Queue(net', w) == Queue(net, w);
    TakenKeeps(net', w);
  }

  // ----- new hosts, terminals and connections -----

  lemma LinkAdded(net: Net, h: Name, l: Link)
    requires Inv(net) && h in net.nodes && l.user.None? && l.host.None?
    ensures Inv(WithLink(net, h, l)) && Risen(net, WithLink(net, h, l))
  {
    hide HostOk, Simple, Seqno, LogGrows, DirOk, VersionOk, WiredStep, NodeOk, Wired;
    var n := net.nodes[h];
    var n' := n.(links := n.links + [l]);
    var net' := WithLink(net, h, l);
    assert net' == net.(nodes := net.nodes[h := n'], log := net.log);
    HostOf(net, h);
    GrowsTrivially(net.log);
    LongerKeeps(net.log, n, l);
    forall w | 0 <= w < |net.wires| ensures WireOk(net', w) {
      assert WireOk(net, w) && WireOk(net, Rev(w));
      WireEnd(net, w);
      WireEnd(net, Rev(w));
      HostOf(net, net.wires[w].to.host);
      WireKept(net, net.log, h, n', w, true);
    }
    forall i | 0 <= i < |n'.links| && n'.links[i].host.Some? ensures Wired(net, End(h, i)) {
      HostLinkIsWired(net, h, i);
    }
    HostsKept(net, net.log, h, n');
    VersionsKept(net, h, n', net.log);
  }

  lemma LongerKeeps(log: map<Version, Value>, n: Node, l: Link)
    requires NodeOk(log, n) && l.user.None? && l.host.None?
    ensures var n' := n.(links := n.links + [l]);
            && NodeOk(log, n') && Rises(n, n')
            && forall i, p :: 0 <= i < |n.links| ==> WiredStep(log, n, n', i, p, true)
  {
    hide RecordOk, MsgOk;
    var n' := n.(links := n.links + [l]);
    forall k ensures Lookup(n', k) == Lookup(n, k) {}
    forall x | x in n'.users ensures EntryOk(log, n', x) {
      assert EntryOk(log, n, x);
    }
    forall x | 0 <= x < |n'.links| ensures LinkOk(n'.my, n'.links[x]) && TerminalOk(n', x) {
      if x < |n.links| { assert LinkOk(n.my, n.links[x]) && TerminalOk(n, x); }
    }
  }

  lemma StartKeeps(net: Net, h: Name)
    requires Inv(net) && h !in net.nodes && h != ""
    ensures Inv(WithNode(net, h, Node(h, map[], [], []))) && Risen(net, WithNode(net, h, Node(h, map[], [], [])))
  {
    hide Simple, Seqno, DirOk, NodeOk, Wired;
    var net' := WithNode(net, h, Node(h, map[], [], []));
    forall w | 0 <= w < |net.wires| ensures WireOk(net', w) {
      assert WireOk(net, w);
    }
    forall v | v in net.log ensures VersionOk(net', v) {
      assert VersionOk(net, v);
    }
    forall g | g in net'.nodes ensures HostOk(net', g) {
      if g == h {
        EmptyIsOk(net.log, h);
      } else {
        assert HostOk(net, g);
        forall i | 0 <= i < |net'.nodes[g].links| && net'.nodes[g].links[i].host.Some? ensures Wired(net', End(g, i)) {
          HostLinkIsWired(net, g, i);
          SameWires(net, net', End(g, i));
        }
      }
    }
  }

  lemma SameWires(net: Net, net': Net, e: End)
    requires Wired(net, e) && |net.wires| <= |net'.wires| && net'.wires[..|net.wires|] == net.wires
    ensures Wired(net', e)
  {
    var w :| 0 <= w < |net.wires| && net.wires[w].from == e;
    assert net'.wires[w] == net'.wires[..|net.wires|][w];
  }

  lemma EmptyIsOk(log: map<Version, Value>, h: Name)
    ensures NodeOk(log, Node(h, map[], [], []))
  {
  }

  /** The two directions of a connection that a has just opened. */
  lemma NewDirections(log: map<Version, Value>, a: Node, i: nat, b: Node, j: nat)
    requires i < |a.links| && a.links[i] == SentTo(NewLink, HostMsg(a.my)) && j < |b.links| && b.links[j] == NewLink
    ensures DirOk(log, a, i, b, j) && DirOk(log, b, j, a, i)
  {
  }

  lemma ConnectKeeps(net: Net, a: Name, b: Name)
    requires Inv(net) && Enabled(net, Connect(a, b))
    ensures Inv(Connected(net, a, b)) && Risen(net, Connected(net, a, b))
  {
    hide Seqno, DirOk, NodeOk, WithLink, HostOk, VersionOk, Simple, Risen;
    var ea, eb := End(a, |net.nodes[a].links|), End(b, |net.nodes[b].links|);
    var l := SentTo(NewLink, HostMsg(net.nodes[a].my));
    var net1 := WithLink(net, a, l);
    LinkAdded(net, a, l);
    WithLinkIs(net, a, l);
    var net2 := WithLink(net1, b, NewLink);
    LinkAdded(net1, b, NewLink);
    WithLinkIs(net1, b, NewLink);
    var net3 := Connected(net, a, b);
    RisenTwice(net, net1, net2, net3);
    HostOf(net2, a);
    HostOf(net2, b);
    NewDirections(net.log, net2.nodes[a], ea.link, net2.nodes[b], eb.link);
    var n := |net.wires|;
    SimpleLonger(net, a, b);
    forall w | 0 <= w < |net3.wires| ensures WireOk(net3, w) {
      if w < n {
        assert WireOk(net2, w);
        assert net3.wires[w] == net2.wires[w] && net3.wires[Rev(w)] == net2.wires[Rev(w)];
      } else {
        assert net3.wires[n] == Wire(ea, eb) && net3.wires[n + 1] == Wire(eb, ea);
        EvenWires(net);
      }
    }
    forall h | h in net3.nodes ensures HostOk(net3, h) {
      ConnectedHost(net2, net3, h);
    }
    forall v | v in net3.log ensures VersionOk(net3, v) {
      assert VersionOk(net2, v);
      SameHostsSameVersions(net2, net3, v);
    }
  }

  lemma RisenTwice(net: Net, net1: Net, net2: Net, net3: Net)
    requires Risen(net, net1) && Risen(net1, net2) && net3.nodes == net2.nodes
    ensures Risen(net, net3)
  {
    hide Seqno;
  }

  lemma EvenWires(net: Net)
    requires Inv(net)
    ensures |net.wires| % 2 == 0
  {
  }

  lemma SameHostsSameVersions(net: Net, net': Net, v: Version)
    requires VersionOk(net, v) && net'.nodes == net.nodes
    ensures VersionOk(net', v)
  {
  }

  lemma ConnectedHost(net: Net, net': Net, h: Name)
    requires HostOk(net, h) && net'.nodes == net.nodes && net'.log == net.log
    requires |net.wires| <= |net'.wires| && net'.wires[..|net.wires|] == net.wires
    ensures HostOk(net', h)
  {
    hide NodeOk, Wired;
    forall i | 0 <= i < |net'.nodes[h].links| && net'.nodes[h].links[i].host.Some? ensures Wired(net', End(h, i)) {
      SameWires(net, net', End(h, i));
    }
  }

  lemma WithLinkIs(net: Net, h: Name, l: Link)
    requires h in net.nodes
    ensures var r := WithLink(net, h, l);
            && r.wires == net.wires && r.log == net.log && r.nodes.Keys == net.nodes.Keys
            && (forall g :: g in net.nodes && g != h ==> r.nodes[g] == net.nodes[g])
            && r.nodes[h].links == net.nodes[h].links + [l] && r.nodes[h].my == net.nodes[h].my
  {
  }

  lemma SimpleLonger(net: Net, a: Name, b: Name)
    requires Inv(net) && Enabled(net, Connect(a, b))
    ensures var ea, eb := End(a, |net.nodes[a].links|), End(b, |net.nodes[b].links|);
            Simple(net.wires + [Wire(ea, eb), Wire(eb, ea)])
  {
    hide HostOk, NodeOk, VersionOk, Seqno;
    var ea, eb := End(a, |net.nodes[a].links|), End(b, |net.nodes[b].links|);
    forall w | 0 <= w < |net.wires|
      ensures net.wires[w].from != ea && net.wires[w].from != eb && !Joins(net.wires[w], a, b)
      ensures !Joins(net.wires[w], b, a)
    {
      assert WireOk(net, w);
      WireEnd(net, w);
      assert !Joins(net.wires[Rev(w)], a, b);
    }
  }

  /** Every step keeps the invariant. */
  lemma StepKeeps(net: Net, e: Event)
    requires Inv(net) && Enabled(net, e)
    ensures Inv(Step(net, e)) && Risen(net, Step(net, e))
  {
    hide Inv, Risen, Wired, CommandOk, Locked, Commanded, NameCommand,
         ChannelCommand, NoteCommand, CloseLink, WithLink, Connected, Delivered;
    match e
    case Start(h) => StartKeeps(net, h);
    case Terminal(h) => LinkAdded(net, h, NewLink);
    case Connect(a, b) => ConnectKeeps(net, a, b);
    case DoName(h, lp, name, channel, note, best, now) =>
      HostOf(net, h);
      HomeIsNewest(net, h, Key(name, h));
      NameKeeps(net.log, net.nodes[h], lp, name, channel, note, best, now);
      CommandKeeps(net, h, lp, NameCommand(Locked(net.nodes[h], lp), lp, name, channel, note, best, now), Key(name, h));
    case DoChannel(h, lp, channel, now) =>
      UserIsHome(net, h, lp);
      HomeIsNewest(net, h, UserOf(net, h, lp));
      ChannelKeeps(net.log, net.nodes[h], lp, UserOf(net, h, lp), channel, now);
      CommandKeeps(net, h, lp, ChannelCommand(Locked(net.nodes[h], lp), lp, UserOf(net, h, lp), channel, now),
          UserOf(net, h, lp));
    case DoNote(h, lp, note, now) =>
      UserIsHome(net, h, lp);
      HomeIsNewest(net, h, UserOf(net, h, lp));
      NoteKeeps(net.log, net.nodes[h], lp, UserOf(net, h, lp), note, now);
      CommandKeeps(net, h, lp, NoteCommand(Locked(net.nodes[h], lp), lp, UserOf(net, h, lp), note, now),
          UserOf(net, h, lp));
    case Hangup(h, lp, best, now) =>
      UserIsHome(net, h, lp);
      HomeIsNewest(net, h, UserOf(net, h, lp));
      HangupKeeps(net.log, net.nodes[h], lp, UserOf(net, h, lp), best, now);
      CommandKeeps(net, h, lp, CloseLink(net.nodes[h], lp, best, now), UserOf(net, h, lp));
    case Deliver(w, best, now) =>
      WireOf(net, w);
      DeliverKeeps(net, w, best, now);
  }

  lemma WireOf(net: Net, w: nat)
    requires Inv(net) && w < |net.wires|
    ensures WireOk(net, w)
  {
  }

  lemma UserIsHome(net: Net, h: Name, lp: nat)
    requires Inv(net) && h in net.nodes && lp < |net.nodes[h].links|
    ensures net.nodes[h].my == h && NodeOk(net.log, net.nodes[h]) && UserOf(net, h, lp).host == h
  {
    assert HostOk(net, h);
    assert LinkOk(h, net.nodes[h].links[lp]);
  }

  // ----- what follows for every run -----

  ghost predicate CanRun(net: Net, events: seq<Event>)
    requires Inv(net)
    decreases |events|
  {
    events != [] ==> Enabled(net, events[0]) && (StepKeeps(net, events[0]); CanRun(Step(net, events[0]), events[1..]))
  }

  ghost function Run(net: Net, events: seq<Event>): (r: Net)
    requires Inv(net) && CanRun(net, events)
    ensures Inv(r)
    decreases |events|
  {
    if events == [] then net else StepKeeps(net, events[0]); Run(Step(net, events[0]), events[1..])
  }

  lemma EmptyIsFine()
    ensures Inv(Empty)
  {
  }

  /** Everything that can happen to a network which starts without a host. */
  ghost predicate History(events: seq<Event>) {
    EmptyIsFine();
    CanRun(Empty, events)
  }

  ghost function After(events: seq<Event>): (r: Net)
    requires History(events)
    ensures Inv(r)
  {
    EmptyIsFine();
    Run(Empty, events)
  }

  /** A user on a channel is reached over a link that is there: what the loops over the
      users that hand on a message read. */
  lemma NoNullLink(net: Net, h: Name, k: Key)
    requires Inv(net) && h in net.nodes && Lookup(net.nodes[h], k).channel >= 0
    ensures var n := net.nodes[h]; var lp := Lookup(n, k).link;
            && lp.Some? && lp.value < |n.links|
            && if k.host == h then n.links[lp.value].user == Some(k) else n.links[lp.value].host.Some?
  {
    hide WireOk, Simple;
    HostOf(net, h);
    assert EntryOk(net.log, net.nodes[h], k);
  }

  /** No host and no line under way is ahead of the home host of a user. */
  lemma NobodyIsAhead(net: Net, h: Name, k: Key)
    requires Inv(net) && h in net.nodes && Seqno(net.nodes[h], k) > 0
    ensures k.host in net.nodes && Seqno(net.nodes[h], k) <= Seqno(net.nodes[k.host], k)
  {
    hide WireOk, Simple;
    HostOf(net, h);
    assert EntryOk(net.log, net.nodes[h], k);
    assert VersionOk(net, Version(k, Seqno(net.nodes[h], k)));
  }

  lemma NoLineIsAhead(net: Net, w: nat, x: nat)
    requires Inv(net) && w < |net.wires| && WireOk(net, w) && x < |Queue(net, w)| && Queue(net, w)[x].UserMsg?
    ensures var m := Queue(net, w)[x]; m.key.host in net.nodes && 1 <= m.seqno <= Seqno(net.nodes[m.key.host], m.key)
  {
    hide HostOk, Simple;
    var m := Queue(net, w)[x];
    assert MsgOk(net.log, net.nodes[net.wires[w].from.host], m);
    assert VersionOk(net, Version(m.key, m.seqno));
  }

  /** Hosts with the same version of a user agree about it. */
  lemma SameVersionSameUser(net: Net, g: Name, h: Name, k: Key)
    requires Inv(net) && g in net.nodes && h in net.nodes
    requires Seqno(net.nodes[g], k) == Seqno(net.nodes[h], k)
    ensures var u, v := Lookup(net.nodes[g], k), Lookup(net.nodes[h], k);
            u.channel == v.channel && (u.channel >= 0 ==> u.note == v.note)
  {
    hide WireOk, Simple;
    HostOf(net, g);
    HostOf(net, h);
    assert k in net.nodes[g].users ==> EntryOk(net.log, net.nodes[g], k);
    assert k in net.nodes[h].users ==> EntryOk(net.log, net.nodes[h], k);
  }

  // ----- a quiet network -----

  ghost predicate Quiet(net: Net) {
    forall w :: 0 <= w < |net.wires| && WireOk(net, w) ==> Queue(net, w) == []
  }

  /** In a quiet network both ends of a connection have the same version of every user. */
  lemma QuietWireAgrees(net: Net, w: nat, k: Key)
    requires Inv(net) && Quiet(net) && w < |net.wires|
    ensures WireOk(net, w) && Seqno(net.nodes[net.wires[w].from.host], k) <= Seqno(net.nodes[net.wires[w].to.host], k)
  {
    hide HostOk, Simple, MsgOk, Seqno;
    assert WireOk(net, w) && WireOk(net, Rev(w));
    var f, t := net.wires[w].from, net.wires[w].to;
    assert Queue(net, w) == [] && Queue(net, Rev(w)) == [];
    assert net.nodes[f.host].links[f.link].host.Some?;
    assert Ahead(net.nodes[f.host].links[f.link].sndq, net.nodes[f.host], net.nodes[t.host], k);
  }

  /** A way of connections from one host to another. */
  ghost predicate Path(net: Net, g: Name, way: seq<nat>, h: Name)
    decreases |way|
  {
    if way == [] then g == h
    else way[0] < |net.wires| && net.wires[way[0]].from.host == g && Path(net, net.wires[way[0]].to.host, way[1..], h)
  }

  lemma {:induction false} QuietPathAgrees(net: Net, g: Name, way: seq<nat>, h: Name, k: Key)
    requires Inv(net) && Quiet(net) && g in net.nodes && h in net.nodes && Path(net, g, way, h)
    ensures Seqno(net.nodes[g], k) == Seqno(net.nodes[h], k)
    decreases |way|
  {
    hide Inv, Quiet, Seqno;
    if way != [] {
      QuietWireAgrees(net, way[0], k);
      WireOf(net, way[0]);
      QuietWireAgrees(net, Rev(way[0]), k);
      QuietPathAgrees(net, net.wires[way[0]].to.host, way[1..], h, k);
    }
  }

  /** Once nothing is under way, every host that a way of connections joins to a
      user's home host knows the user as the home host does. */
  lemma QuietNetworkAgrees(net: Net, g: Name, way: seq<nat>, k: Key)
    requires Inv(net) && Quiet(net) && g in net.nodes && k.host in net.nodes && Path(net, g, way, k.host)
    ensures var u, home := Lookup(net.nodes[g], k), Lookup(net.nodes[k.host], k);
            && u.seqno == home.seqno && u.channel == home.channel
            && (home.channel >= 0 ==> u.note == home.note)
  {
    hide Inv, Quiet;
    QuietPathAgrees(net, g, way, k.host, k);
    SameVersionSameUser(net, g, k.host, k);
  }

  // ----- the flood -----

  lemma {:induction false} RunRises(net: Net, events: seq<Event>)
    requires Inv(net) && CanRun(net, events)
    ensures Risen(net, Run(net, events))
    decreases |events|
  {
    hide Inv, Seqno;
    if events != [] {
      StepKeeps(net, events[0]);
      RunRises(Step(net, events[0]), events[1..]);
    }
  }

  /** What is delivered first in a queue and whether the receiver takes it. */
  ghost predicate Takes(net: Net, w: nat) {
    && WireOk(net, w) && Queue(net, w) != [] && Queue(net, w)[0].UserMsg?
    && Queue(net, w)[0].seqno > Seqno(net.nodes[net.wires[w].to.host], Queue(net, w)[0].key)
  }

  /** A host takes a version of a user at most once, in whatever order and from
      wherever the lines come: after it did, none that carries the same or an
      older version is taken. */
  lemma TakenOnce(net: Net, w: nat, best: map<Name, nat>, now: int, net1: Net, events: seq<Event>, net2: Net, v: nat)
    requires Inv(net) && Enabled(net, Deliver(w, best, now)) && Takes(net, w)
    requires net1 == Step(net, Deliver(w, best, now))
    requires Inv(net1) && CanRun(net1, events) && net2 == Run(net1, events) && v < |net2.wires| && Takes(net2, v)
    requires net2.wires[v].to.host == net.wires[w].to.host && Queue(net2, v)[0].key == Queue(net, w)[0].key
    ensures Queue(net2, v)[0].seqno > Queue(net, w)[0].seqno
  {
    hide Inv, WireOk, Seqno;
    WireOf(net, w);
    DeliveryIs(net, w, best, now);
    RunRises(net1, events);
  }

  lemma DeliveryIs(net: Net, w: nat, best: map<Name, nat>, now: int)
    requires Inv(net) && Enabled(net, Deliver(w, best, now)) && WireOk(net, w)
    ensures Queue(net, w)[0].UserMsg? ==>
              net.wires[w].to.host in Delivered(net, w, best, now).nodes &&
              Seqno(Delivered(net, w, best, now).nodes[net.wires[w].to.host], Queue(net, w)[0].key) >=
              Queue(net, w)[0].seqno
  {
    hide Input;
    var told := InputKeeps(net, w, best, now);
  }

  /** The sides of connections that have not heard from the other host. */
  ghost function Unmet(net: Net): set<nat> {
    set w: nat | w < |net.wires| && Alone(net, w)
  }

  ghost predicate Alone(net: Net, w: nat) {
    WireOk(net, w) && net.nodes[net.wires[w].from.host].links[net.wires[w].from.link].host.None?
  }

  datatype Lack = Lack(host: Name, version: Version)

  /** The versions that hosts have not seen yet. */
  ghost function Missing(net: Net): set<Lack> {
    set h, v | h in net.nodes && v in net.log && Older(net.nodes[h], v) :: Lack(h, v)
  }

  ghost predicate Older(n: Node, v: Version) {
    Seqno(n, v.key) < v.seqno
  }

  ghost function Waiting(net: Net, w: nat): nat {
    if WireOk(net, w) then |Queue(net, w)| else 0
  }

  /** The lines under way on the first n wires. */
  ghost function InFlight(net: Net, n: nat): nat {
    if n == 0 then 0 else InFlight(net, n - 1) + Waiting(net, n - 1)
  }

  /** One queue is shorter, and every other longer by one line at most. */
  lemma {:induction false} InFlightSpreads(net: Net, net': Net, n: nat, w: nat)
    requires forall v: nat :: v < n && v != w ==> Waiting(net', v) <= Waiting(net, v) + 1
    requires w < n ==> Waiting(net', w) < Waiting(net, w)
    ensures InFlight(net', n) <= InFlight(net, n) + n - if w < n then 2 else 0
    decreases n
  {
    hide Waiting;
    if n > 0 { InFlightSpreads(net, net', n - 1, w); }
  }

  /** One queue is shorter, another longer by g at most. */
  lemma {:induction false} InFlightMoves(net: Net, net': Net, n: nat, w: nat, r: nat, g: nat)
    requires forall v: nat :: v < n && v != w ==> Waiting(net', v) <= Waiting(net, v) + if v == r then g else 0
    requires w < n ==> Waiting(net', w) < Waiting(net, w)
    ensures InFlight(net', n) <= InFlight(net, n) + (if r < n then g else 0) - if w < n then 1 else 0
    decreases n
  {
    hide Waiting;
    if n > 0 { InFlightMoves(net, net', n - 1, w, r, g); }
  }

  /** Where a step at h for lp leaves the ends of the other wires. */
  lemma EndsAfter(net: Net, w: nat, best: map<Name, nat>, now: int, v: nat)
    requires Inv(net) && Enabled(net, Deliver(w, best, now)) && v < |net.wires| && WireOk(net, w)
    requires Inv(Delivered(net, w, best, now))
    ensures var net' := Delivered(net, w, best, now);
            && Alone(net', v) == (Alone(net, v) && v != Rev(w))
            && WireOk(net', v) && WireOk(net, v)
  {
    hide Inv, StepOk, WiredStep, Input, Seqno, DirOk, Popped, OtherLink;
    var told := InputKeeps(net, w, best, now);
    var net' := Delivered(net, w, best, now);
    var f, t := net.wires[w].from, net.wires[w].to;
    WireOf(net, v);
    WireOf(net', v);
    WireOf(net, w);
    WireOf(net, Rev(w));
    WireEnd(net, v);
    WireEnd(net, w);
    WireEnd(net, Rev(w));
    var n, n' := net.nodes[t.host], Input(net.nodes[t.host], t.link, Queue(net, w)[0], best, now);
    if v == Rev(w) {
    } else if net.wires[v].from.host == t.host {
      OnlyRev(net, v, Rev(w));
      StepKeepsHost(net.log, n, n', t.link, net.wires[v].from.link);
    } else if net.wires[v].from.host == f.host {
      PoppedHost(net.nodes[f.host], f.link, net.wires[v].from.link);
    }
  }

  lemma OnlyRev(net: Net, v: nat, w: nat)
    requires Inv(net) && v < |net.wires| && w < |net.wires| && v != w
    ensures net.wires[v].from != net.wires[w].from
  {
  }

  lemma StepKeepsHost(log: map<Version, Value>, n: Node, n': Node, lp: nat, i: nat)
    requires StepOk(log, n, n', lp) && i != lp && i < |n.links| && n.links[i].user.None?
    ensures i < |n'.links| && n'.links[i].host == n.links[i].host
  {
    hide NodeOk, Rises, WiredStep;
    assert OtherLink(log, n, n', i);
  }

  lemma PoppedHost(n: Node, i: nat, j: nat)
    requires i < |n.links| && j < |n.links| && n.links[i].sndq != []
    ensures Popped(n, i).links[j].host == n.links[j].host
    ensures j != i ==> Popped(n, i).links[j] == n.links[j]
  {
  }

  /** A line that changes nothing sends nothing on. */
  lemma IgnoredSendsNothing(n: Node, lp: nat, m: Msg, best: map<Name, nat>, now: int)
    requires lp < |n.links| && n.links[lp].host.Some? && n.links[lp].user.None? && (m.HostMsg? || m.UserMsg?)
    requires m.UserMsg? ==> 1 <= m.seqno <= Seqno(n, m.key)
    ensures var n' := Input(n, lp, m, best, now);
            |n'.links| == |n.links| && forall i :: 0 <= i < |n.links| ==> n'.links[i].sndq == n.links[i].sndq
  {
    hide HHost, Locked;
    LockedIs(n, lp);
  }

  /** How many lines the receiver puts on a wire, at most, for the first line of w. */
  ghost function Sent(net: Net, w: nat, v: nat): nat {
    if Takes(net, w) then (if v == w then 0 else 1)
    else if Alone(net, Rev(w)) && v == Rev(w) then 1 + |net.log|
    else 0
  }

  /** What the receiver sends on its links. */
  lemma InputSends(net: Net, w: nat, best: map<Name, nat>, now: int, i: nat)
    requires Inv(net) && Enabled(net, Deliver(w, best, now)) && WireOk(net, w)
    requires var t := net.wires[w].to; i < |net.nodes[t.host].links|
    ensures var t := net.wires[w].to; var n := net.nodes[t.host];
            var n' := Input(n, t.link, Queue(net, w)[0], best, now);
            && i < |n'.links|
            && |n'.links[i].sndq| <= |n.links[i].sndq| +
                 if Takes(net, w) then (if i == t.link then 0 else 1)
                 else if Alone(net, Rev(w)) && i == t.link then 1 + |net.log| else 0
  {
    hide NodeOk, DirOk, HUser, HHost, Locked, Simple, Knows;
    var f, t := net.wires[w].from, net.wires[w].to;
    var n, m := net.nodes[t.host], Queue(net, w)[0];
    assert WireOk(net, Rev(w));
    FirstLine(net, w);
    HostOf(net, t.host);
    HostOf(net, f.host);
    WireEnd(net, Rev(w));
    NoOtherLink(net, w);
    LockedIs(n, t.link);
    if n.links[t.link].host.None? {
      IntroductionSends(net.log, n, t.link, f.host, best, now, i);
    } else if Takes(net, w) {
      var told := InputKeeps(net, w, best, now);
      AcceptedSends(n, t.link, m, now, i);
    } else {
      if m.UserMsg? { NoLineIsAhead(net, w, 0); }
      IgnoredSendsNothing(n, t.link, m, best, now);
    }
  }

  /** The first line of a queue: an introduction by the sender where the receiver does
      not know it yet. */
  lemma FirstLine(net: Net, w: nat)
    requires Inv(net) && w < |net.wires| && WireOk(net, w) && Queue(net, w) != []
    ensures var f, t := net.wires[w].from, net.wires[w].to; var m := Queue(net, w)[0];
            && (net.nodes[t.host].links[t.link].host.None? ==> m == HostMsg(f.host))
            && (m.HostMsg? ==> m == HostMsg(f.host))
  {
    hide NodeOk, Simple, Informed;
    HostOf(net, net.wires[w].from.host);
    assert MsgOk(net.log, net.nodes[net.wires[w].from.host], Queue(net, w)[0]);
  }

  lemma WaitingAfter(net: Net, w: nat, best: map<Name, nat>, now: int, v: nat)
    requires Inv(net) && Enabled(net, Deliver(w, best, now)) && v < |net.wires| && WireOk(net, w)
    requires Inv(Delivered(net, w, best, now))
    ensures Waiting(Delivered(net, w, best, now), v) <= Waiting(net, v) + Sent(net, w, v) - if v == w then 1 else 0
    ensures v == w ==> Sent(net, w, v) == 0
  {
    hide Inv, Input, Seqno, DirOk, Popped, Takes, Alone;
    var net' := Delivered(net, w, best, now);
    var f, t := net.wires[w].from, net.wires[w].to;
    WireOf(net, v);
    WireOf(net', v);
    WireOf(net, Rev(w));
    WireEnd(net, v);
    WireEnd(net, w);
    WireEnd(net, Rev(w));
    PoppedQueue(net.nodes[f.host], f.link);
    if v != w { OnlyRev(net, v, w); }
    if v != Rev(w) { OnlyRev(net, v, Rev(w)); }
    if net.wires[v].from.host == t.host { InputSends(net, w, best, now, net.wires[v].from.link); }
    if net.wires[v].from.host == f.host && v != w { PoppedHost(net.nodes[f.host], f.link, net.wires[v].from.link); }
  }

  lemma PoppedQueue(n: Node, i: nat)
    requires i < |n.links| && n.links[i].sndq != []
    ensures |Popped(n, i).links[i].sndq| == |n.links[i].sndq| - 1
  {
  }

  /** Who lacks a version afterwards: the same as before, but for the receiver of one
      it takes. */
  lemma OlderAfter(net: Net, w: nat, best: map<Name, nat>, now: int, h: Name, v: Version)
    requires Inv(net) && Enabled(net, Deliver(w, best, now)) && WireOk(net, w) && h in net.nodes
    ensures h in Delivered(net, w, best, now).nodes
    ensures Older(Delivered(net, w, best, now).nodes[h], v) ==> Older(net.nodes[h], v)
    ensures !Takes(net, w) ==> (Older(net.nodes[h], v) ==> Older(Delivered(net, w, best, now).nodes[h], v))
    ensures Takes(net, w) && h == net.wires[w].to.host && v == Version(Queue(net, w)[0].key, Queue(net, w)[0].seqno) ==>
              Older(net.nodes[h], v) && !Older(Delivered(net, w, best, now).nodes[h], v)
  {
    hide Inv, Input, DirOk, Popped, StepOk, WiredStep;
    var told := InputKeeps(net, w, best, now);
    var f := net.wires[w].from;
    PoppedSeqnos(net.nodes[f.host], f.link);
  }

  /** What the receiver lacks afterwards. */
  lemma MissingAfter(net: Net, w: nat, best: map<Name, nat>, now: int)
    requires Inv(net) && Enabled(net, Deliver(w, best, now)) && WireOk(net, w)
    ensures if Takes(net, w) then Missing(Delivered(net, w, best, now)) < Missing(net)
            else Missing(Delivered(net, w, best, now)) == Missing(net)
  {
    hide Inv, DirOk, Takes, Older, Heard, Popped;
    var net' := Delivered(net, w, best, now);
    var t := net.wires[w].to;
    DeliveredNodes(net, w, best, now);
    forall h, v | h in net.nodes && v in net.log ensures Older(net'.nodes[h], v) ==> Older(net.nodes[h], v) {
      OlderAfter(net, w, best, now, h, v);
    }
    if Takes(net, w) {
      var v := TakenIsKnown(net, w);
      OlderAfter(net, w, best, now, t.host, v);
      assert Lack(t.host, v) in Missing(net) && Lack(t.host, v) !in Missing(net');
    } else {
      forall h, v | h in net.nodes && v in net.log ensures Older(net.nodes[h], v) ==> Older(net'.nodes[h], v) {
        OlderAfter(net, w, best, now, h, v);
      }
    }
  }

  lemma DeliveredNodes(net: Net, w: nat, best: map<Name, nat>, now: int)
    requires Inv(net) && Enabled(net, Deliver(w, best, now)) && WireOk(net, w)
    ensures Delivered(net, w, best, now).nodes.Keys == net.nodes.Keys && Delivered(net, w, best, now).log == net.log
  {
    hide Inv, Input, Popped;
  }

  lemma PoppedSeqnos(n: Node, i: nat)
    requires i < |n.links| && n.links[i].sndq != []
    ensures forall k :: Seqno(Popped(n, i), k) == Seqno(n, k)
  {
  }

  lemma TakenIsKnown(net: Net, w: nat) returns (v: Version)
    requires Inv(net) && w < |net.wires| && WireOk(net, w) && Takes(net, w)
    ensures Queue(net, w) != [] && Queue(net, w)[0].UserMsg?
    ensures v == Version(Queue(net, w)[0].key, Queue(net, w)[0].seqno) && v in net.log
    ensures net.wires[w].to.host in net.nodes
  {
    hide HostOk, Simple;
    v := Version(Queue(net, w)[0].key, Queue(net, w)[0].seqno);
    assert MsgOk(net.log, net.nodes[net.wires[w].from.host], Queue(net, w)[0]);
  }

  /** What deliveries use up: the lines under way, the versions that hosts lack, and
      the sides that have not heard from the other host, each at what it may cost. */
  ghost function Potential(net: Net): nat {
    InFlight(net, |net.wires|) + Cost(|net.wires|, |Missing(net)|) + Cost(|net.log| + 1, |Unmet(net)|)
  }

  function Cost(each: nat, n: nat): nat {
    each * n
  }

  /** Every delivery makes progress: a side hears from the other host for the first
      time, or a host learns a version it lacked, or there is a line less under way,
      and what either sets off is paid for. */
  lemma DeliveryProgresses(net: Net, w: nat, best: map<Name, nat>, now: int)
    requires Inv(net) && Enabled(net, Deliver(w, best, now))
    ensures Potential(Step(net, Deliver(w, best, now))) < Potential(net)
  {
    hide Inv, WireOk, Alone, Takes, Delivered, Waiting, InFlight, Missing, Unmet;
    WireOf(net, w);
    DeliverKeeps(net, w, best, now);
    var net' := Step(net, Deliver(w, best, now));
    DeliveredWires(net, w, best, now);
    DeliveredNodes(net, w, best, now);
    UnmetAfter(net, w, best, now);
    MissingAfter(net, w, best, now);
    RevInside(net, w);
    forall v: nat | v < |net.wires|
      ensures Waiting(net', v) <= Waiting(net, v) + Sent(net, w, v) - if v == w then 1 else 0
    {
      WaitingAfter(net, w, best, now, v);
    }
    WaitingAfter(net, w, best, now, w);
    var n, l := |net.wires|, |net.log| + 1;
    if Takes(net, w) {
      TakesAmongMet(net, w);
      Less(Missing(net'), Missing(net));
      InFlightSpreads(net, net', n, w);
      Cheaper(n, |Missing(net')|, |Missing(net)|);
    } else {
      InFlightMoves(net, net', n, w, Rev(w), if Alone(net, Rev(w)) then l else 0);
      if Alone(net, Rev(w)) {
        Less(Unmet(net'), Unmet(net));
        Cheaper(l, |Unmet(net')|, |Unmet(net)|);
      }
    }
  }

  lemma Less<T>(a: set<T>, b: set<T>)
    requires a < b
    ensures |a| < |b|
  {
    var rest := b - a;
    assert b == a + rest && rest != {};
  }

  lemma Cheaper(k: nat, a: nat, b: nat)
    requires a < b
    ensures Cost(k, a) <= Cost(k, b) - k
  {
    var c: nat := b - a - 1;
    assert b == a + 1 + c;
    assert k * b == k * a + k + k * c;
  }

  /** Who takes a version has heard from the sender. */
  lemma TakesAmongMet(net: Net, w: nat)
    requires Inv(net) && w < |net.wires| && Takes(net, w)
    ensures !Alone(net, Rev(w))
  {
    hide HostOk, Simple;
    assert WireOk(net, w) && WireOk(net, Rev(w));
    FirstLine(net, w);
  }

  lemma UnmetAfter(net: Net, w: nat, best: map<Name, nat>, now: int)
    requires Inv(net) && Enabled(net, Deliver(w, best, now)) && WireOk(net, w)
    requires Inv(Delivered(net, w, best, now))
    ensures if Alone(net, Rev(w)) then Unmet(Delivered(net, w, best, now)) < Unmet(net)
            else Unmet(Delivered(net, w, best, now)) == Unmet(net)
  {
    hide Inv, DirOk, Alone, Heard, Popped;
    var net' := Delivered(net, w, best, now);
    DeliveredWires(net, w, best, now);
    RevInside(net, w);
    forall v: nat | v < |net.wires| ensures Alone(net', v) == (Alone(net, v) && v != Rev(w)) {
      EndsAfter(net, w, best, now, v);
    }
    if Alone(net, Rev(w)) { assert Rev(w) in Unmet(net) && Rev(w) !in Unmet(net'); }
  }

  lemma RevInside(net: Net, w: nat)
    requires WireOk(net, w)
    ensures Rev(w) < |net.wires|
  {
  }

  lemma DeliveredWires(net: Net, w: nat, best: map<Name, nat>, now: int)
    requires Inv(net) && Enabled(net, Deliver(w, best, now)) && WireOk(net, w)
    ensures Delivered(net, w, best, now).wires == net.wires && Delivered(net, w, best, now).log == net.log
  {
    hide Input, Inv, Popped;
  }

  /** Whatever lines are delivered in whatever order and at whatever times, there are
      no more deliveries than the potential of the network. */
  lemma {:induction false} FloodIsBounded(net: Net, events: seq<Event>)
    requires Inv(net) && CanRun(net, events) && forall e :: e in events ==> e.Deliver?
    ensures |events| + Potential(Run(net, events)) <= Potential(net)
    decreases |events|
  {
    hide Inv, Enabled, Potential, Step;
    if events != [] {
      var e := events[0];
      assert e in events && forall x :: x in events[1..] ==> x in events;
      StepKeeps(net, e);
      DeliveryProgresses(net, e.w, e.best, e.now);
      FloodIsBounded(Step(net, e), events[1..]);
    }
  }

  /** A run of deliveries that cannot go on has made the network quiet. */
  lemma StuckMeansQuiet(net: Net, events: seq<Event>)
    requires Inv(net) && CanRun(net, events)
    requires forall w, best, now :: !Enabled(Run(net, events), Deliver(w, best, now))
    ensures Quiet(Run(net, events))
  {
    hide Inv, Enabled;
    if !Quiet(Run(net, events)) {
      var w := NotQuietMeansDelivery(Run(net, events), map[], 0);
    }
  }

  /** Whoever chooses the next delivery, step for step, from what there is, comes to a
      quiet network. */
  lemma {:induction false} FloodEnds(net: Net, choose: (Net, nat) -> Event, i: nat) returns (events: seq<Event>)
    requires Inv(net)
    requires forall n, k :: Inv(n) && !Quiet(n) ==> choose(n, k).Deliver? && Enabled(n, choose(n, k))
    ensures CanRun(net, events) && Quiet(Run(net, events)) && |events| <= Potential(net)
    ensures forall e :: e in events ==> e.Deliver?
    decreases Potential(net)
  {
    hide Inv, Quiet, Enabled, Potential;
    if Quiet(net) {
      events := [];
    } else {
      var e := choose(net, i);
      StepKeeps(net, e);
      DeliveryProgresses(net, e.w, e.best, e.now);
      var rest := FloodEnds(Step(net, e), choose, i + 1);
      events := [e] + rest;
      assert events[1..] == rest;
    }
  }

  /** While the network is not quiet there is a line to deliver. */
  lemma NotQuietMeansDelivery(net: Net, best: map<Name, nat>, now: int) returns (w: nat)
    requires Inv(net) && !Quiet(net)
    ensures Enabled(net, Deliver(w, best, now))
  {
    hide HostOk, Simple;
    w :| 0 <= w < |net.wires| && WireOk(net, w) && Queue(net, w) != [];
    assert WireOk(net, Rev(w));
    assert MsgOk(net.log, net.nodes[net.wires[w].from.host], Queue(net, w)[0]);
  }

  // ----- what users do becomes known -----

  /** Deliveries make no new version and no new connection. */
  lemma {:induction false} DeliveriesOnly(net: Net, events: seq<Event>)
    requires Inv(net) && CanRun(net, events) && forall e :: e in events ==> e.Deliver?
    ensures Run(net, events).wires == net.wires && Run(net, events).log == net.log
    decreases |events|
  {
    hide Inv, Enabled, Step;
    if events != [] {
      var e := events[0];
      assert e in events && forall x :: x in events[1..] ==> x in events;
      StepKeeps(net, e);
      OneDelivery(net, e);
      DeliveriesOnly(Step(net, e), events[1..]);
    }
  }

  lemma OneDelivery(net: Net, e: Event)
    requires Inv(net) && e.Deliver? && Enabled(net, e)
    ensures Step(net, e).wires == net.wires && Step(net, e).log == net.log
  {
    hide Inv, Delivered, WireOk;
    WireOf(net, e.w);
    DeliveredWires(net, e.w, e.best, e.now);
  }

  /** What a home host says of its user stands as long as nothing but deliveries happens. */
  lemma HomeStands(net: Net, net': Net, k: Key)
    requires Inv(net) && Inv(net') && net'.log == net.log && Risen(net, net') && k.host in net.nodes
    ensures var u, v := Lookup(net.nodes[k.host], k), Lookup(net'.nodes[k.host], k);
            v.seqno == u.seqno && v.channel == u.channel && (u.channel >= 0 ==> v.note == u.note)
  {
    hide Inv, Rises;
    assert Rises(net.nodes[k.host], net'.nodes[k.host]);
    RecordOf(net, k.host, k);
    RecordOf(net', k.host, k);
    HomeIsNewest(net, k.host, k);
    NewestIsSame(net.log, net.nodes[k.host], net'.nodes[k.host], k);
  }

  lemma NewestIsSame(log: map<Version, Value>, n: Node, n': Node, k: Key)
    requires RecordOk(log, k, Lookup(n, k)) && RecordOk(log, k, Lookup(n', k))
    requires Newest(log, n, k) && Rises(n, n')
    ensures var u, v := Lookup(n, k), Lookup(n', k);
            v.seqno == u.seqno && v.channel == u.channel && (u.channel >= 0 ==> v.note == u.note)
  {
    if Seqno(n', k) > 0 { assert Version(k, Seqno(n', k)) in log; }
    assert Seqno(n, k) <= Seqno(n', k);
  }

  lemma RecordOf(net: Net, h: Name, k: Key)
    requires Inv(net) && h in net.nodes
    ensures RecordOk(net.log, k, Lookup(net.nodes[h], k))
  {
    hide WireOk, Simple, Knows, PointerOk;
    HostOf(net, h);
    assert k in net.nodes[h].users ==> EntryOk(net.log, net.nodes[h], k);
  }

  lemma {:induction false} SamePath(net: Net, net': Net, g: Name, way: seq<nat>, h: Name)
    requires Path(net, g, way, h) && net'.wires == net.wires
    ensures Path(net', g, way, h)
    decreases |way|
  {
    if way != [] { SamePath(net, net', net.wires[way[0]].to.host, way[1..], h); }
  }

  /** After any history, whatever is delivered next in whatever order, within the bound
      every host joined to a user's home knows the user as the home knew it. */
  lemma NewsArrives(events: seq<Event>, choose: (Net, nat) -> Event, g: Name, way: seq<nat>,
      k: Key) returns (more: seq<Event>)
    requires History(events)
    requires forall n, i :: Inv(n) && !Quiet(n) ==> choose(n, i).Deliver? && Enabled(n, choose(n, i))
    requires var net := After(events); g in net.nodes && k.host in net.nodes && Path(net, g, way, k.host)
    ensures var net := After(events);
            && |more| <= Potential(net) && CanRun(net, more) && Quiet(Run(net, more)) && g in Run(net, more).nodes
            && var u, home := Lookup(Run(net, more).nodes[g], k), Lookup(net.nodes[k.host], k);
            u.seqno == home.seqno && u.channel == home.channel && (home.channel >= 0 ==> u.note == home.note)
    ensures forall e :: e in more ==> e.Deliver?
  {
    hide Inv, Quiet, Enabled, Potential, Run, CanRun, Step, Path;
    var net := After(events);
    more := FloodEnds(net, choose, 0);
    var net' := Run(net, more);
    DeliveriesOnly(net, more);
    RunRises(net, more);
    SamePath(net, net', g, way, k.host);
    QuietNetworkAgrees(net', g, way, k);
    HomeStands(net, net', k);
  }
}
