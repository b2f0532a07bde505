/** One convers host (convers/conversd.c): its users, its links, and what a line
    of input makes of them. */
module ConversNode {
  import opened Options

  type Name = string

  const MAX_CHANNEL := 32767
  const NO_NOTE: string := "@"

  /** A user is known by name and home host. */
  datatype Key = Key(name: Name, host: Name)

  /** struct user; seqno is u_seq, and link the index of u_link. */
  datatype User = User(seqno: int, link: Option<nat>, channel: int, oldchannel: int, note: string)

  /** A line in a send queue. The last five are text for a terminal; Reply
      stands for what answers a command of its user. */
  datatype Msg =
    | HostMsg(name: Name)
    | UserMsg(key: Key, seqno: int, oldchannel: int, channel: int, note: string)
    | ChannelMsg(from: Name, channel: int, text: string)
    | PrivateMsg(from: Name, to: Name, text: string)
    | Line(prefix: string, text: string)
    | Switched(name: Name, channel: int)
    | SignedOff(name: Name)
    | SignedOn(name: Name)
    | Reply

  /** struct link; a closed one stays in the list without user and host. */
  datatype Link = Link(open: bool, user: Option<Key>, host: Option<Name>, locked: bool, sndq: seq<Msg>)

  const NewLink := Link(true, None, None, false, [])

  /** order is the list of users, links the list of links in the order they came. */
  datatype Node = Node(my: Name, users: map<Key, User>, order: seq<Key>, links: seq<Link>)

  /** Every user is in the list once. */
  ghost predicate Listed(n: Node) {
    && (forall k :: k in n.users <==> k in n.order)
    && (forall i, j :: 0 <= i < j < |n.order| ==> n.order[i] != n.order[j])
  }

  const NewUser := User(0, None, -1, -1, NO_NOTE)

  /** userptr, which makes an entry where there is none */
  function Lookup(n: Node, k: Key): User {
    if k in n.users then n.users[k] else NewUser
  }

  function Put(n: Node, k: Key, u: User): Node {
    n.(users := n.users[k := u], order := if k in n.users then n.order else n.order + [k])
  }

  /** inc_seq */
  function IncSeq(s: int, now: int): (r: int)
    ensures r > s && r >= now && (r == s + 1 || r == now)
  {
    if s + 1 < now then now else s + 1
  }

  function Unlocked(links: seq<Link>): (r: seq<Link>)
    ensures |r| == |links|
  {
    seq(|links|, i requires 0 <= i < |links| => links[i].(locked := false))
  }

  function SentTo(l: Link, m: Msg): Link {
    l.(sndq := l.sndq + [m], locked := true)
  }

  function Send(n: Node, lp: nat, m: Msg): Node
    requires lp < |n.links|
  {
    n.(links := n.links[lp := SentTo(n.links[lp], m)])
  }

  /** How a user is reported to another host. */
  function Report(k: Key, u: User, oldchannel: int): Msg {
    UserMsg(k, u.seqno, oldchannel, u.channel, if u.channel >= 0 then u.note else "")
  }

  /** What send_user_change_msg does to one link. */
  function Told(users: map<Key, User>, l: Link, k: Key, u: User): Link {
    if l.locked then l
    else if l.user.Some? && u.oldchannel != u.channel then
      var c := if l.user.value in users then users[l.user.value].channel else -1;
      if c == u.oldchannel then SentTo(l, if u.channel >= 0 then Switched(k.name, u.channel) else SignedOff(k.name))
      else if c == u.channel then SentTo(l, SignedOn(k.name))
      else l
    else if l.host.Some? then SentTo(l, Report(k, u, u.oldchannel))
    else l
  }

  /** send_user_change_msg */
  function Broadcast(n: Node, k: Key): (r: Node)
    ensures |r.links| == |n.links| && r.my == n.my && r.users == n.users && r.order == n.order
  {
    n.(links := seq(|n.links|, i requires 0 <= i < |n.links| => Told(n.users, n.links[i], k, Lookup(n, k))))
  }

  /** Whether h_user_command takes the message. */
  predicate Accepts(u: User, lp: nat, m: Msg)
    requires m.UserMsg?
  {
    || m.seqno > u.seqno
    || (m.seqno == 0 && u.seqno == 0 && (u.link.None? || u.link == Some(lp))
        && (m.channel != u.channel || (m.channel >= 0 && m.note != "" && m.note != u.note)))
  }

  /** h_user_command */
  function HUser(n: Node, lp: nat, m: Msg, now: int): Node
    requires lp < |n.links| && m.UserMsg?
  {
    var u := Lookup(n, m.key);
    if !Accepts(u, lp, m) then Put(n, m.key, u)
    else if m.key.host == n.my then
      var s := IncSeq(m.seqno, now);
      Send(Put(n, m.key, u.(seqno := s)), lp, UserMsg(m.key, s, m.channel, u.channel, u.note))
    else
      Broadcast(Put(n, m.key, User(m.seqno, Some(lp), m.channel, u.channel,
          if m.note == "" then u.note else m.note)), m.key)
  }

  // ----- close_link -----

  /** The user of a link that is gone: moved to the best other way to its host,
      or off. */
  function SignedOffOne(n: Node, k: Key, best: map<Name, nat>, now: int): (r: Node)
    ensures |r.links| == |n.links| && r.my == n.my
  {
    var u := Lookup(n, k);
    if k.host in best then Put(n, k, u.(link := Some(best[k.host])))
    else
      var s := if u.seqno == 0 then 0 else if k.host == n.my then IncSeq(u.seqno, now) else u.seqno + 1;
      Broadcast(Put(n, k, User(s, None, -1, u.channel, u.note)).(links := Unlocked(n.links)), k)
  }

  predicate Leaves(n: Node, lp: nat, k: Key) {
    k in n.users && n.users[k].channel >= 0 && n.users[k].link == Some(lp)
  }

  /** The loop of close_link over the users. */
  function Dropped(n: Node, lp: nat, keys: seq<Key>, best: map<Name, nat>, now: int): (r: Node)
    ensures |r.links| == |n.links| && r.my == n.my
    decreases keys
  {
    if keys == [] then n
    else Dropped(if Leaves(n, lp, keys[0]) then SignedOffOne(n, keys[0], best, now) else n, lp, keys[1..], best, now)
  }

  function Shut(n: Node, lp: nat): Node
    requires lp < |n.links|
  {
    n.(links := n.links[lp := n.links[lp].(open := false, user := None, host := None)])
  }

  /** close_link; best is the best way left to every host, from the round trip times. */
  function CloseLink(n: Node, lp: nat, best: map<Name, nat>, now: int): (r: Node)
    requires lp < |n.links|
    ensures |r.links| == |n.links| && r.my == n.my
  {
    Dropped(Shut(n, lp), lp, n.order, best, now)
  }

  // ----- commands of a terminal -----

  function Bounded(channel: int): int {
    if channel < 0 || channel > MAX_CHANNEL then 0 else channel
  }

  /** name_command */
  function NameCommand(n: Node, lp: nat, name: Name, channel: int, note: string, best: map<Name, nat>, now: int): Node
    requires lp < |n.links|
  {
    if name == "" then n
    else
      var k := Key(name, n.my);
      var u := Lookup(n, k);
      var s := IncSeq(u.seqno, now);
      var n1 := Put(n, k, u.(seqno := s, link := Some(lp)));
      var n2 := if u.channel >= 0 && u.link.Some? && u.link.value < |n.links|
          then CloseLink(n1, u.link.value, best, now) else n1;
      NamedOn(n2, lp, k, channel, note)
  }

  /** What follows once a former link of the user is closed. */
  function NamedOn(n: Node, lp: nat, k: Key, channel: int, note: string): Node
    requires lp < |n.links|
  {
    var u := Lookup(n, k);
    var n1 := Send(n.(links := n.links[lp := n.links[lp].(user := Some(k))]), lp, Reply);
    var n2 := if channel == Bounded(channel) then n1 else Send(n1, lp, Reply);
    Broadcast(Put(n2, k, u.(oldchannel := u.channel, channel := Bounded(channel),
        note := if note == "" then NO_NOTE else note)), k)
  }

  /** channel_command of the user k on link lp. */
  function ChannelCommand(n: Node, lp: nat, k: Key, channel: int, now: int): Node
    requires lp < |n.links|
  {
    var u := Lookup(n, k);
    if channel != Bounded(channel) || channel == u.channel then Send(n, lp, Reply)
    else
      Send(Broadcast(Put(n, k, u.(seqno := IncSeq(u.seqno, now), oldchannel := u.channel, channel := channel)), k),
           lp, Reply)
  }

  /** note_command of the user k on link lp. */
  function NoteCommand(n: Node, lp: nat, k: Key, note: string, now: int): Node
    requires lp < |n.links|
  {
    var u := Lookup(n, k);
    if note == "" || note == u.note then Send(n, lp, Reply)
    else
      Send(Broadcast(Put(n, k, u.(seqno := IncSeq(u.seqno, now), oldchannel := u.channel, note := note)), k), lp, Reply)
  }

  // ----- another host -----

  function Moved(users: map<Key, User>, from: nat, to: nat): map<Key, User> {
    map k | k in users :: if users[k].link == Some(from) then users[k].(link := Some(to)) else users[k]
  }

  /** A link that led to the host before lp did. */
  function Replaced(n: Node, lp: nat, name: Name, former: nat, best: map<Name, nat>, now: int): (r: Node)
    requires former < |n.links|
    ensures |r.links| == |n.links| && r.my == n.my
  {
    if former != lp && n.links[former].host == Some(name) then
      CloseLink(n.(users := Moved(n.users, former, lp)), former, best, now)
    else n
  }

  function ReplacedAll(n: Node, lp: nat, name: Name, i: nat, best: map<Name, nat>, now: int): (r: Node)
    ensures |r.links| == |n.links| && r.my == n.my
    decreases |n.links| - i
  {
    if i >= |n.links| then n else ReplacedAll(Replaced(n, lp, name, i, best, now), lp, name, i + 1, best, now)
  }

  /** The users another host is told about. */
  function Dump(users: map<Key, User>, order: seq<Key>): seq<Msg> {
    if order == [] then []
    else
      (if order[0] in users && (users[order[0]].channel >= 0 || users[order[0]].seqno != 0)
       then [Report(order[0], users[order[0]], -1)] else [])
      + Dump(users, order[1..])
  }

  function SentAll(l: Link, ms: seq<Msg>): Link {
    if ms == [] then l else l.(sndq := l.sndq + ms, locked := true)
  }

  /** h_host_command */
  function HHost(n: Node, lp: nat, name: Name, best: map<Name, nat>, now: int): Node
    requires lp < |n.links|
  {
    if name == "" then n
    else if name == n.my then CloseLink(n, lp, best, now)
    else
      var n1 := ReplacedAll(n.(links := n.links[lp := n.links[lp].(host := Some(name))]), lp, name, 0, best, now);
      n1.(links := n1.links[lp := SentAll(n1.links[lp], [HostMsg(n.my)] + Dump(n1.users, n1.order))])
  }

  /** clear_locks, and the link the input came from locked */
  function Locked(n: Node, lp: nat): (r: Node)
    requires lp < |n.links|
    ensures |r.links| == |n.links| && r.my == n.my
  {
    var links := Unlocked(n.links);
    n.(links := links[lp := links[lp].(locked := true)])
  }

  /** process_input for a line of another host. */
  function Input(n: Node, lp: nat, m: Msg, best: map<Name, nat>, now: int): Node
    requires lp < |n.links| && (m.HostMsg? || m.UserMsg?)
  {
    var n1 := Locked(n, lp);
    if n1.links[lp].user.Some? then Send(n1, lp, Reply)
    else if n1.links[lp].host.Some? then
      if m.UserMsg? then HUser(n1, lp, m, now) else n1
    else if m.HostMsg? then HHost(n1, lp, m.name, best, now)
    else n1
  }
}
