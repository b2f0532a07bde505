/** What the commands of convers make of a user, and who is told of it in which words
    (convers/conversd.c). */
module ConversCommands {
  import opened Options
  import opened ConversNode
  import opened ConversLinks
  import opened ConversSteps

  /** The link has these lines more at the end of its send queue. */
  ghost predicate Gets(l: Link, l': Link, lines: seq<Msg>) {
    l' == l.(sndq := l.sndq + lines, locked := l.locked || lines != [])
  }

  /** What a link gets when k comes from channel `from` to channel `to`, or has another
      note there: a host the whole record, a terminal a notice if its user is on one of
      the two channels, and a link that is locked nothing. */
  ghost predicate Sees(n: Node, l: Link, l': Link, k: Key, s: int, from: int, to: int, note: string) {
    && (l.locked ==> l' == l)
    && (!l.locked && l.user.None? ==> Gets(l, l', if l.host.Some? then [UserMsg(k, s, from, to, note)] else []))
    && (!l.locked && l.user.Some? && l.host.None? ==> Gets(l, l', Notice(Lookup(n, l.user.value).channel, k, from, to)))
  }

  /** The notice for someone on channel `here`. */
  ghost function Notice(here: int, k: Key, from: int, to: int): seq<Msg> {
    if from == to || here !in {from, to} then []
    else if here == to then [SignedOn(k.name)]
    else if to < 0 then [SignedOff(k.name)]
    else [Switched(k.name, to)]
  }

  /** Nobody but k changes, and every link but lp sees it. */
  ghost predicate OthersSee(n: Node, n': Node, lp: nat, k: Key, s: int, from: int, to: int, note: string) {
    && n'.my == n.my && |n'.links| == |n.links| && (forall x :: x != k ==> Lookup(n', x) == Lookup(n, x))
    && forall i :: 0 <= i < |n.links| && i != lp ==> Sees(n', n.links[i], n'.links[i], k, s, from, to, note)
  }

  lemma BroadcastSeen(n: Node, k: Key, u: User, links: seq<Link>, i: nat)
    requires |links| == |n.links| && i < |links|
    ensures var r := Broadcast(Put(n, k, u).(links := links), k);
            Sees(r, links[i], r.links[i], k, u.seqno, u.oldchannel, u.channel, if u.channel >= 0 then u.note else "")
  {
  }

  lemma PutsOnly(n: Node, k: Key, u: User, links: seq<Link>)
    ensures var r := Broadcast(Put(n, k, u).(links := links), k);
            && Lookup(r, k) == u && (forall x :: x != k ==> Lookup(r, x) == Lookup(n, x))
            && r.my == n.my && |r.links| == |links| && r.users.Keys == n.users.Keys + {k}
  {
  }

  lemma TellsOthers(n: Node, lp: nat, k: Key, u: User)
    ensures var r := Broadcast(Put(n, k, u), k);
            && OthersSee(n, r, lp, k, u.seqno, u.oldchannel, u.channel, if u.channel >= 0 then u.note else "")
            && Lookup(r, k) == u && (lp < |n.links| && n.links[lp].locked ==> r.links[lp] == n.links[lp])
  {
    hide Sees;
    assert Put(n, k, u).(links := n.links) == Put(n, k, u);
    PutsOnly(n, k, u, n.links);
    forall i | 0 <= i < |n.links|
      ensures var r := Broadcast(Put(n, k, u), k);
              Sees(r, n.links[i], r.links[i], k, u.seqno, u.oldchannel, u.channel,
                   if u.channel >= 0 then u.note else "")
    {
      BroadcastSeen(n, k, u, n.links, i);
    }
  }

  /** An answer to lp comes after everything else. */
  lemma Answered(n: Node, r: Node, lp: nat, k: Key, s: int, from: int, to: int, note: string)
    requires OthersSee(n, r, lp, k, s, from, to, note) && lp < |n.links|
    ensures var r' := Send(r, lp, Reply);
            && OthersSee(n, r', lp, k, s, from, to, note) && Lookup(r', k) == Lookup(r, k)
            && Gets(r.links[lp], r'.links[lp], [Reply])
  {
    hide Lookup;
    forall x ensures Lookup(Send(r, lp, Reply), x) == Lookup(r, x) { hide *; SameUsers(r, Send(r, lp, Reply), x); }
  }

  lemma SameUsers(n: Node, n': Node, x: Key)
    requires n'.users == n.users
    ensures Lookup(n', x) == Lookup(n, x)
  {
  }

  // ----- the commands of a terminal -----

  /** Who asks for another channel that there is comes to that one, with a higher
      number; the hosts and everyone on either channel are told, and the user gets an
      answer. */
  lemma ChannelChanges(n: Node, lp: nat, k: Key, channel: int, now: int)
    requires lp < |n.links| && n.links[lp].locked && 0 <= channel <= 32767 && channel != Lookup(n, k).channel
    ensures var r := ChannelCommand(n, lp, k, channel, now); var u, u' := Lookup(n, k), Lookup(r, k);
            && u'.channel == channel && u'.oldchannel == u.channel && u'.seqno > u.seqno && u'.seqno >= now
            && u'.note == u.note && u'.link == u.link
            && OthersSee(n, r, lp, k, u'.seqno, u.channel, channel, u.note) && Gets(n.links[lp], r.links[lp], [Reply])
  {
    hide Broadcast, OthersSee, Put;
    var u := Lookup(n, k);
    var u' := u.(seqno := IncSeq(u.seqno, now), oldchannel := u.channel, channel := channel);
    TellsOthers(n, lp, k, u');
    Answered(n, Broadcast(Put(n, k, u'), k), lp, k, u'.seqno, u.channel, channel, u.note);
  }

  /** Who asks for the own channel or one that there is not gets an answer, and nothing
      else happens. */
  lemma ChannelStays(n: Node, lp: nat, k: Key, channel: int, now: int)
    requires lp < |n.links| && (channel < 0 || channel > 32767 || channel == Lookup(n, k).channel)
    ensures var r := ChannelCommand(n, lp, k, channel, now);
            r == n.(links := n.links[lp := r.links[lp]]) && Gets(n.links[lp], r.links[lp], [Reply])
  {
  }

  /** Another note is known under a higher number, and only the hosts are told. */
  lemma NoteChanges(n: Node, lp: nat, k: Key, note: string, now: int)
    requires lp < |n.links| && n.links[lp].locked && note != "" && note != Lookup(n, k).note
    ensures var r := NoteCommand(n, lp, k, note, now); var u, u' := Lookup(n, k), Lookup(r, k);
            && u'.note == note && u'.channel == u.channel && u'.oldchannel == u.channel
            && u'.seqno > u.seqno && u'.seqno >= now && u'.link == u.link
            && OthersSee(n, r, lp, k, u'.seqno, u.channel, u.channel, if u.channel >= 0 then note else "")
            && Gets(n.links[lp], r.links[lp], [Reply])
  {
    hide Broadcast, OthersSee, Put;
    var u := Lookup(n, k);
    var u' := u.(seqno := IncSeq(u.seqno, now), oldchannel := u.channel, note := note);
    TellsOthers(n, lp, k, u');
    Answered(n, Broadcast(Put(n, k, u'), k), lp, k, u'.seqno, u.channel, u.channel,
             if u.channel >= 0 then note else "");
  }

  lemma NoteStays(n: Node, lp: nat, k: Key, note: string, now: int)
    requires lp < |n.links| && (note == "" || note == Lookup(n, k).note)
    ensures var r := NoteCommand(n, lp, k, note, now);
            r == n.(links := n.links[lp := r.links[lp]]) && Gets(n.links[lp], r.links[lp], [Reply])
  {
  }

  /** The channel a login leads to, and the note. */
  ghost predicate AsAsked(u: User, channel: int, note: string) {
    && u.channel == (if 0 <= channel <= 32767 then channel else 0)
    && u.note == (if note == "" then "@" else note)
  }

  /** A login on a terminal, once a former one is closed: the terminal is the user's, is
      greeted, and is told if there is no such channel; the others see the user come. */
  lemma LogsOn(n: Node, lp: nat, k: Key, channel: int, note: string)
    requires lp < |n.links|
    ensures var r := NamedOn(n, lp, k, channel, note); var u, u' := Lookup(n, k), Lookup(r, k);
            && AsAsked(u', channel, note) && u' == u.(channel := u'.channel, oldchannel := u.channel, note := u'.note)
            && OthersSee(n, r, lp, k, u.seqno, u.channel, u'.channel, u'.note)
            && Gets(n.links[lp].(user := Some(k)), r.links[lp],
                    if 0 <= channel <= 32767 then [Reply] else [Reply, Reply])
  {
    hide Broadcast, OthersSee, Put, Lookup;
    NamedOnIs(n, lp, k, channel, note);
    var u := Lookup(n, k);
    var u' := u.(oldchannel := u.channel, channel := Bounded(channel), note := if note == "" then NO_NOTE else note);
    var links := n.links[lp := Welcomed(n.links[lp], k, channel)];
    var n1 := n.(links := links);
    assert Put(n, k, u').(links := links) == Put(n1, k, u') by { PutOn(n, n1, k, u'); }
    TellsOthers(n1, lp, k, u');
    SeenFrom(n, n1, NamedOn(n, lp, k, channel, note), lp, k, u'.seqno, u.channel, u'.channel, u'.note);
    assert n.links[lp].sndq + [Reply] + [Reply] == n.links[lp].sndq + [Reply, Reply];
  }

  lemma SeenFrom(n: Node, n1: Node, r: Node, lp: nat, k: Key, s: int, from: int, to: int, note: string)
    requires OthersSee(n1, r, lp, k, s, from, to, note) && lp < |n.links|
    requires n1 == n.(links := n1.links) && |n1.links| == |n.links|
    requires forall i :: 0 <= i < |n.links| && i != lp ==> n1.links[i] == n.links[i]
    ensures OthersSee(n, r, lp, k, s, from, to, note)
  {
    hide Sees;
  }

  /** What the login of a user on a free terminal comes to: a higher number, this
      terminal, the channel and the note asked for. The former terminal, if there is
      one, is closed, and nobody else is touched. */
  lemma NamedAs(log: map<Version, Value>, n: Node, lp: nat, name: Name, channel: int, note: string,
      best: map<Name, nat>, now: int)
    requires NodeOk(log, n) && AtTerminal(n, lp) && n.links[lp].user.None? && name != ""
    ensures var k := Key(name, n.my); var r := NameCommand(Locked(n, lp), lp, name, channel, note, best, now);
            var u, u' := Lookup(n, k), Lookup(r, k);
            && AsAsked(u', channel, note) && u'.link == Some(lp) && u'.oldchannel == u.channel
            && u'.seqno > u.seqno && u'.seqno >= now && r.links[lp].user == Some(k)
            && (forall x :: x != k ==> Lookup(r, x) == Lookup(n, x)) && |r.links| == |n.links|
            && forall i :: 0 <= i < |n.links| && i != lp ==>
                 Sees(r, Left(n.links[i], k), r.links[i], k, u'.seqno, u.channel, u'.channel, u'.note)
  {
    hide NodeOk, NamedOn, Sees, AsAsked, CloseLink;
    LockedIs(n, lp);
    var k := Key(name, n.my);
    var u, s := Lookup(n, k), IncSeq(Lookup(n, k).seqno, now);
    var n1 := Put(Locked(n, lp), k, u.(seqno := s, link := Some(lp)));
    FormerLinkCloses(log, n, lp, k, s, best, now);
    var n2 := if u.channel >= 0 && u.link.Some? && u.link.value < |n.links|
        then CloseLink(n1, u.link.value, best, now) else n1;
    LogsOn(n2, lp, k, channel, note);
  }

  /** A link that is not locked, and closed if it is a terminal of k. */
  function Left(l: Link, k: Key): Link {
    if l.user == Some(k) then Link(false, None, None, false, l.sndq) else l.(locked := false)
  }

  lemma NobodyNamed(n: Node, lp: nat, channel: int, note: string, best: map<Name, nat>, now: int)
    requires lp < |n.links|
    ensures NameCommand(n, lp, "", channel, note, best, now) == n
  {
  }

  // ----- a link that is gone -----

  /** A user whose link is gone stays where there is another way to the host, and
      nobody is told. Otherwise the user is off: without link and channel, under the
      next number, and everyone who is on the channel left and every host is told. */
  lemma SignsOff(n: Node, k: Key, best: map<Name, nat>, now: int)
    ensures var r := SignedOffOne(n, k, best, now); var u, u' := Lookup(n, k), Lookup(r, k);
            && |r.links| == |n.links| && (forall x :: x != k ==> Lookup(r, x) == Lookup(n, x))
            && u'.note == u.note
            && (k.host in best ==> r.links == n.links && u' == u.(link := Some(best[k.host])))
            && (k.host !in best ==>
                  && u'.link == None && u'.channel == -1 && u'.oldchannel == u.channel
                  && (if u.seqno == 0 then u'.seqno == 0
                      else if k.host == n.my then u'.seqno == (if u.seqno + 1 < now then now else u.seqno + 1)
                      else u'.seqno == u.seqno + 1)
                  && forall i :: 0 <= i < |n.links| ==>
                       Sees(r, n.links[i].(locked := false), r.links[i], k, u'.seqno, u.channel, -1, ""))
  {
    hide Broadcast, Sees;
    if k.host !in best {
      var u := Lookup(n, k);
      var s := if u.seqno == 0 then 0 else if k.host == n.my then IncSeq(u.seqno, now) else u.seqno + 1;
      var u', links := User(s, None, -1, u.channel, u.note), Unlocked(n.links);
      PutsOnly(n, k, u', links);
      var r := SignedOffOne(n, k, best, now);
      forall i | 0 <= i < |n.links|
        ensures Sees(r, n.links[i].(locked := false), r.links[i], k, s, u.channel, -1, "")
      {
        BroadcastSeen(n, k, u', links, i);
      }
    }
  }

  /** Each user of the link leaves it once, and no other user is touched. */
  lemma {:induction false} UsersLeave(n: Node, lp: nat, keys: seq<Key>, best: map<Name, nat>, now: int, x: Key)
    requires forall i, j :: 0 <= i < j < |keys| ==> keys[i] != keys[j]
    ensures Lookup(Dropped(n, lp, keys, best, now), x) ==
              if x in keys && Leaves(n, lp, x) then Lookup(SignedOffOne(n, x, best, now), x) else Lookup(n, x)
    decreases keys
  {
    hide SignedOffOne;
    if keys != [] {
      var k, rest := keys[0], keys[1..];
      assert x in keys <==> x == k || x in rest;
      assert k !in rest;
      var n1 := if Leaves(n, lp, k) then SignedOffOne(n, k, best, now) else n;
      if Leaves(n, lp, k) { SignsOff(n, k, best, now); }
      UsersLeave(n1, lp, rest, best, now, x);
      if x != k { SameRecordSignsOff(n, n1, x, best, now); }
    }
  }

  lemma SameRecordSignsOff(n: Node, n1: Node, x: Key, best: map<Name, nat>, now: int)
    requires n1.my == n.my && Lookup(n1, x) == Lookup(n, x)
    ensures Lookup(SignedOffOne(n1, x, best, now), x) == Lookup(SignedOffOne(n, x, best, now), x)
  {
    hide Broadcast;
  }

  /** The link that is closed leads to nobody from then on and gets no line any more. */
  lemma {:induction false} StaysShut(n: Node, lp: nat, keys: seq<Key>, best: map<Name, nat>, now: int)
    requires lp < |n.links| && n.links[lp].user.None? && n.links[lp].host.None?
    ensures Dropped(n, lp, keys, best, now).links[lp].(locked := false) == n.links[lp].(locked := false)
    decreases keys
  {
    if keys != [] {
      StaysShut(if Leaves(n, lp, keys[0]) then SignedOffOne(n, keys[0], best, now) else n, lp, keys[1..], best, now);
    }
  }

  /** What the end of a link comes to: it is closed, its users leave it one by one, and
      nobody else is touched. */
  lemma LinkEnds(n: Node, lp: nat, best: map<Name, nat>, now: int, x: Key)
    requires lp < |n.links| && Listed(n)
    ensures var r := CloseLink(n, lp, best, now); var l := r.links[lp];
            && !l.open && l.user.None? && l.host.None? && l.sndq == n.links[lp].sndq
            && Lookup(r, x) == if x in n.users && n.users[x].channel >= 0 && n.users[x].link == Some(lp)
                               then Lookup(SignedOffOne(n, x, best, now), x) else Lookup(n, x)
  {
    hide SignedOffOne, Dropped;
    StaysShut(Shut(n, lp), lp, n.order, best, now);
    UsersLeave(Shut(n, lp), lp, n.order, best, now, x);
    SameRecordSignsOff(n, Shut(n, lp), x, best, now);
  }

  // ----- what another host reports -----

  /** Whether a report is news: a higher number, or without numbers another state from
      the link it came from the first time. */
  ghost predicate IsNews(u: User, lp: nat, m: Msg)
    requires m.UserMsg?
  {
    || m.seqno > u.seqno
    || (m.seqno == 0 && u.seqno == 0 && u.link in {None, Some(lp)}
        && (m.channel != u.channel || (m.channel >= 0 && m.note !in {"", u.note})))
  }

  /** News of a user of another host is taken over and told to all but the link it came
      from. */
  lemma NewsIsTaken(n: Node, lp: nat, m: Msg, now: int)
    requires lp < |n.links| && n.links[lp].locked && m.UserMsg? && m.key.host != n.my && IsNews(Lookup(n, m.key), lp, m)
    ensures var r := HUser(n, lp, m, now); var u, u' := Lookup(n, m.key), Lookup(r, m.key);
            && u'.seqno == m.seqno && u'.link == Some(lp) && u'.channel == m.channel && u'.oldchannel == u.channel
            && u'.note == (if m.note == "" then u.note else m.note) && r.links[lp] == n.links[lp]
            && OthersSee(n, r, lp, m.key, m.seqno, u.channel, m.channel, if m.channel >= 0 then u'.note else "")
  {
    hide Broadcast, OthersSee;
    var u := Lookup(n, m.key);
    TellsOthers(n, lp, m.key,
                User(m.seqno, Some(lp), m.channel, u.channel, if m.note == "" then u.note else m.note));
  }

  /** What is said to be news of our own user is answered with what we know, under a
      number that is higher still. */
  lemma OwnUserIsDefended(n: Node, lp: nat, m: Msg, now: int)
    requires lp < |n.links| && m.UserMsg? && m.key.host == n.my && IsNews(Lookup(n, m.key), lp, m)
    ensures var r := HUser(n, lp, m, now); var u, u' := Lookup(n, m.key), Lookup(r, m.key);
            && u' == u.(seqno := u'.seqno) && u'.seqno > m.seqno && u'.seqno >= now
            && (forall x :: x != m.key ==> Lookup(r, x) == Lookup(n, x))
            && r.links == n.links[lp := r.links[lp]]
            && Gets(n.links[lp], r.links[lp], [UserMsg(m.key, u'.seqno, m.channel, u.channel, u.note)])
  {
  }

  /** What is no news changes no user and is told to nobody. */
  lemma NoNewsIsIgnored(n: Node, lp: nat, m: Msg, now: int)
    requires lp < |n.links| && m.UserMsg? && !IsNews(Lookup(n, m.key), lp, m)
    ensures var r := HUser(n, lp, m, now); r.links == n.links && forall x :: Lookup(r, x) == Lookup(n, x)
  {
  }

  // ----- a host introduces itself -----

  /** The list of users for another host, user by user: each that is or was on a channel
      once, with all that is known. */
  lemma {:induction false} DumpByUser(users: map<Key, User>, order: seq<Key>, k: Key)
    ensures Dump(users, order + [k]) == Dump(users, order) +
              if k in users && (users[k].channel >= 0 || users[k].seqno != 0) then
                [UserMsg(k, users[k].seqno, -1, users[k].channel, if users[k].channel >= 0 then users[k].note else "")]
              else []
  {
    if order == [] {
      assert [] + [k] == [k] && [k][1..] == [];
      assert Dump(users, [k][1..]) == [];
    } else {
      assert (order + [k])[1..] == order[1..] + [k];
      DumpByUser(users, order[1..], k);
    }
  }

  /** A host that no other link leads to: the link is its link now, and it gets our name
      and the list of users. */
  lemma HostIsGreeted(n: Node, lp: nat, name: Name, best: map<Name, nat>, now: int)
    requires lp < |n.links| && name != "" && name != n.my
    requires forall j :: 0 <= j < |n.links| && j != lp ==> n.links[j].host != Some(name)
    ensures var r := HHost(n, lp, name, best, now);
            && r == n.(links := n.links[lp := r.links[lp]])
            && Gets(n.links[lp].(host := Some(name)), r.links[lp], [HostMsg(n.my)] + Dump(n.users, n.order))
  {
    hide ReplacedAll, Dump;
    NothingReplaced(n.(links := n.links[lp := n.links[lp].(host := Some(name))]), lp, name, 0, best, now);
  }

  /** A former link to the same host is closed, and whoever was reached over it is
      reached over the new one: nobody is signed off, and nobody is told anything. */
  lemma FormerLinkIsReplaced(n: Node, lp: nat, name: Name, former: nat, best: map<Name, nat>, now: int)
    requires lp < |n.links| && former < |n.links| && former != lp && n.links[former].host == Some(name)
    ensures var r := Replaced(n, lp, name, former, best, now);
            && r.my == n.my && r.order == n.order && r.users.Keys == n.users.Keys
            && r.links == n.links[former := n.links[former].(open := false, user := None, host := None)]
            && (forall k :: k in n.users ==>
                  r.users[k] == if n.users[k].link == Some(former) then n.users[k].(link := Some(lp)) else n.users[k])
  {
    hide Dropped;
    var n1 := Shut(n.(users := Moved(n.users, former, lp)), former);
    forall x ensures !Leaves(n1, former, x) {}
    NobodyLeaves(n1, former, n1.order, best, now);
  }

  /** A link to ourselves is closed. */
  lemma NoLinkToOurselves(n: Node, lp: nat, best: map<Name, nat>, now: int)
    requires lp < |n.links| && n.my != ""
    ensures HHost(n, lp, n.my, best, now) == CloseLink(n, lp, best, now)
    ensures HHost(n, lp, "", best, now) == n
  {
  }
}
