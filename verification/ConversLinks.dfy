/** What a host knows of the users, what is under way on a connection, and how
    a step at one end leaves it. */
module ConversLinks {
  import opened Options
  import opened ConversNode

  datatype Version = Version(key: Key, seqno: int)
  datatype Value = Value(channel: int, note: string)

  function Seqno(n: Node, k: Key): int {
    Lookup(n, k).seqno
  }

  // ----- what holds of one host -----

  /** The channel is the one of that version, and so is the note while the user
      is on a channel. */
  ghost predicate Knows(log: map<Version, Value>, k: Key, s: int, channel: int, note: string) {
    && Version(k, s) in log && log[Version(k, s)].channel == channel
    && (channel >= 0 ==> log[Version(k, s)].note == note)
  }

  ghost predicate RecordOk(log: map<Version, Value>, k: Key, u: User) {
    && u.note != "" && u.seqno >= 0
    && if u.seqno == 0 then u.channel == -1 else Knows(log, k, u.seqno, u.channel, u.note)
  }

  /** A user on a channel is reached over a link: one of this host over the terminal
      that is its, any other over a link to a host. */
  ghost predicate PointerOk(n: Node, k: Key, u: User) {
    && (u.channel >= 0 ==> u.link.Some?)
    && (u.link.Some? ==>
          && u.link.value < |n.links|
          && if k.host == n.my then u.channel >= 0 && n.links[u.link.value].user == Some(k)
               else n.links[u.link.value].host.Some?)
  }

  /** The user of a terminal is reached over it. */
  ghost predicate TerminalOk(n: Node, i: nat) {
    i < |n.links| && n.links[i].user.Some? ==>
      Lookup(n, n.links[i].user.value).link == Some(i) && Lookup(n, n.links[i].user.value).channel >= 0
  }

  /** A terminal is no link to a host, and its user is at home here. */
  ghost predicate LinkOk(my: Name, l: Link) {
    l.user.None? || (l.host.None? && l.user.value.host == my)
  }

  ghost predicate EntryOk(log: map<Version, Value>, n: Node, k: Key) {
    RecordOk(log, k, Lookup(n, k)) && PointerOk(n, k, Lookup(n, k))
  }

  ghost predicate NodeOk(log: map<Version, Value>, n: Node) {
    && Listed(n)
    && (forall k :: k in n.users ==> EntryOk(log, n, k))
    && (forall i :: 0 <= i < |n.links| ==> LinkOk(n.my, n.links[i]) && TerminalOk(n, i))
  }

  ghost predicate MsgOk(log: map<Version, Value>, n: Node, m: Msg) {
    match m
    case HostMsg(name) => name == n.my
    case UserMsg(k, s, _, channel, note) =>
      1 <= s <= Seqno(n, k) && Knows(log, k, s, channel, note) && (channel >= 0 ==> note != "")
    case _ => false
  }

  ghost predicate Tells(m: Msg, k: Key, s: int) {
    m.UserMsg? && m.key == k && m.seqno >= s
  }

  ghost predicate Covered(q: seq<Msg>, k: Key, s: int) {
    exists j :: 0 <= j < |q| && Tells(q[j], k, s)
  }

  // ----- what holds of one direction of a connection -----

  ghost predicate Ahead(q: seq<Msg>, from: Node, to: Node, k: Key) {
    Seqno(from, k) <= Seqno(to, k) || Covered(q, k, Seqno(from, k))
  }

  /** The far host is as new as this one, or the news is on the way. */
  ghost predicate Informed(from: Node, i: nat, to: Node)
    requires i < |from.links|
  {
    forall k :: Ahead(from.links[i].sndq, from, to, k)
  }

  /** A side that has not heard from the other host has its introduction first
      in the queue towards it, or will get one for its own. */
  ghost predicate Introduced(l: Link, r: Link) {
    r.host.None? ==> if l.sndq != [] then l.sndq[0].HostMsg? else l.host.None? && r.sndq != []
  }

  ghost predicate DirOk(log: map<Version, Value>, from: Node, i: nat, to: Node, j: nat) {
    && i < |from.links| && j < |to.links|
    && from.links[i].open && from.links[i].user.None?
         && (from.links[i].host.Some? ==> from.links[i].host == Some(to.my))
    && (forall x :: 0 <= x < |from.links[i].sndq| ==> MsgOk(log, from, from.links[i].sndq[x]))
    && (from.links[i].host.None? ==> forall x :: 0 <= x < |from.links[i].sndq| ==> from.links[i].sndq[x].HostMsg?)
    && Introduced(from.links[i], to.links[j])
    && (from.links[i].host.Some? ==> Informed(from, i, to))
  }

  // ----- a step of one host -----

  ghost predicate LogGrows(log: map<Version, Value>, log': map<Version, Value>) {
    forall v :: v in log ==>
        v in log' && log'[v].channel == log[v].channel && (log[v].channel >= 0 ==> log'[v].note == log[v].note)
  }

  ghost predicate Rises(n: Node, n': Node) {
    n'.my == n.my && forall k :: Seqno(n, k) <= Seqno(n', k)
  }

  ghost predicate News(q: seq<Msg>, n: Node, n': Node, k: Key) {
    Seqno(n', k) == Seqno(n, k) || Covered(q, k, Seqno(n', k))
  }

  ghost predicate All(q: seq<Msg>, n': Node, k: Key) {
    Seqno(n', k) <= 0 || Covered(q, k, Seqno(n', k))
  }

  /** What a step does to a link between hosts. With told every news goes out on it. */
  ghost predicate WiredStep(log': map<Version, Value>, n: Node, n': Node, i: nat, peer: Name, told: bool) {
    && i < |n.links| && i < |n'.links|
    && var l, l' := n.links[i], n'.links[i];
    && l'.open == l.open && l'.user == l.user
    && |l.sndq| <= |l'.sndq| && l'.sndq[..|l.sndq|] == l.sndq
    && (forall x :: |l.sndq| <= x < |l'.sndq| ==> MsgOk(log', n', l'.sndq[x]))
    && (l.host.Some? ==> l'.host == l.host)
    && (l'.host.None? ==> l'.sndq == l.sndq)
    && (told && l.host.Some? ==> forall k :: News(l'.sndq, n, n', k))
    && (l.host.None? && l'.host.Some? ==>
          && l'.host == Some(peer) && |l.sndq| < |l'.sndq| && l'.sndq[|l.sndq|].HostMsg?
          && forall k :: All(l'.sndq, n', k))
  }

  lemma MsgStaysOk(log: map<Version, Value>, log': map<Version, Value>, n: Node, n': Node, m: Msg)
    requires MsgOk(log, n, m) && LogGrows(log, log') && Rises(n, n')
    ensures MsgOk(log', n', m)
  {
  }

  lemma CoveredLonger(q: seq<Msg>, q': seq<Msg>, k: Key, s: int)
    requires Covered(q, k, s) && |q| <= |q'| && q'[..|q|] == q
    ensures Covered(q', k, s)
  {
    var j :| 0 <= j < |q| && Tells(q[j], k, s);
    assert q'[j] == q'[..|q|][j];
  }

  /** A step at the sending side. */
  lemma FromSteps(log: map<Version, Value>, log': map<Version, Value>, n: Node, n': Node, i: nat, to: Node,
      j: nat, told: bool)
    requires DirOk(log, n, i, to, j) && LogGrows(log, log') && Rises(n, n') && WiredStep(log', n, n', i, to.my, told)
    requires told || forall k :: Seqno(n', k) == Seqno(n, k) || Seqno(n', k) <= Seqno(to, k)
    requires forall k :: Seqno(to, k) >= 0
    ensures DirOk(log', n', i, to, j)
  {
    hide MsgOk, Covered, Seqno, LogGrows;
    var q, q' := n.links[i].sndq, n'.links[i].sndq;
    forall x | 0 <= x < |q'| ensures MsgOk(log', n', q'[x]) {
      if x < |q| {
        assert q'[x] == q'[..|q|][x];
        MsgStaysOk(log, log', n, n', q[x]);
      }
    }
    if n'.links[i].host.Some? {
      forall k ensures Ahead(q', n', to, k) {
        if n.links[i].host.Some? {
          assert Ahead(q, n, to, k);
          assert told ==> News(q', n, n', k);
          if Covered(q, k, Seqno(n, k)) { CoveredLonger(q, q', k, Seqno(n, k)); }
        } else {
          assert All(q', n', k);
        }
      }
    }
  }

  /** A step at the receiving side. */
  lemma ToSteps(log: map<Version, Value>, log': map<Version, Value>, from: Node, i: nat, n: Node, n': Node,
      j: nat, peer: Name, told: bool)
    requires DirOk(log, from, i, n, j) && LogGrows(log, log') && Rises(n, n') && WiredStep(log', n, n', j, peer, told)
    ensures DirOk(log', from, i, n', j)
  {
    hide MsgOk, Covered, Seqno, LogGrows;
    var q := from.links[i].sndq;
    forall x | 0 <= x < |q| ensures MsgOk(log', from, q[x]) {
      MsgStaysOk(log, log', from, from, q[x]);
    }
    if from.links[i].host.Some? {
      forall k ensures Ahead(q, from, n', k) {
        assert Ahead(q, from, n, k);
      }
    }
  }

  function Popped(n: Node, i: nat): Node
    requires i < |n.links| && n.links[i].sndq != []
  {
    n.(links := n.links[i := n.links[i].(sndq := n.links[i].sndq[1..])])
  }

  /** The first line of a queue is taken off once the far host has acted on it. */
  lemma PopKeeps(log: map<Version, Value>, from: Node, i: nat, to: Node, j: nat)
    requires DirOk(log, from, i, to, j) && DirOk(log, to, j, from, i)
    requires from.links[i].sndq != [] && to.links[j].host.Some?
    requires var m := from.links[i].sndq[0]; m.UserMsg? ==> m.seqno <= Seqno(to, m.key)
    ensures DirOk(log, Popped(from, i), i, to, j)
    ensures DirOk(log, to, j, Popped(from, i), i)
  {
    hide MsgOk, Knows;
    var f' := Popped(from, i);
    var q, q' := from.links[i].sndq, f'.links[i].sndq;
    forall k ensures Seqno(f', k) == Seqno(from, k) {}
    forall x | 0 <= x < |q'| ensures MsgOk(log, f', q'[x]) {
      assert q'[x] == q[x + 1];
      MsgStaysOk(log, log, from, f', q[x + 1]);
    }
    if from.links[i].host.Some? {
      forall k ensures Ahead(q', f', to, k) {
        assert Ahead(q, from, to, k);
        if Covered(q, k, Seqno(from, k)) {
          var x :| 0 <= x < |q| && Tells(q[x], k, Seqno(from, k));
          if x > 0 { assert q'[x - 1] == q[x]; }
        }
      }
    }
    if to.links[j].host.Some? {
      forall k ensures Ahead(to.links[j].sndq, to, f', k) {
        assert Ahead(to.links[j].sndq, to, from, k);
      }
    }
  }
}
