/** Every command of a convers host keeps what ConversLinks says of its records,
    and tells the other hosts what it has to. */
module ConversSteps {
  import opened Options
  import opened ConversNode
  import opened ConversLinks

  /** A link that a step does not concern. */
  ghost predicate OtherLink(log': map<Version, Value>, n: Node, n': Node, i: nat) {
    && i < |n.links| && i < |n'.links|
    && (n'.links[i].host.Some? ==> n'.links[i].host == n.links[i].host)
    && (n.links[i].user.None? ==> n'.links[i].host == n.links[i].host && WiredStep(log', n, n', i, "", true))
  }

  /** A step at n on behalf of link lp. */
  ghost predicate StepOk(log': map<Version, Value>, n: Node, n': Node, lp: nat) {
    && NodeOk(log', n') && Rises(n, n') && |n'.links| == |n.links|
    && forall i :: 0 <= i < |n.links| && i != lp ==> OtherLink(log', n, n', i)
  }

  /** The record of k is u now; nothing else of the users has changed. */
  ghost predicate OnlyChanged(n: Node, n': Node, k: Key, u: User) {
    && n'.my == n.my && n'.users == n.users[k := u] && |n'.links| == |n.links|
    && n'.order == Put(n, k, u).order
  }

  lemma SeqnosOf(n: Node, n': Node, k: Key, u: User)
    requires OnlyChanged(n, n', k, u)
    ensures Lookup(n', k) == u && forall x :: x != k ==> Lookup(n', x) == Lookup(n, x)
    ensures Seqno(n', k) == u.seqno && forall x :: x != k ==> Seqno(n', x) == Seqno(n, x)
  {
  }

  /** The link as the news of u leaves it. */
  function ToldHost(l: Link, k: Key, u: User): Link {
    if l.host.Some? then SentTo(l, Report(k, u, u.oldchannel)) else l
  }

  function Bare(l: Link): Link {
    l.(locked := false)
  }

  lemma AnnouncedOn(log': map<Version, Value>, n: Node, n': Node, k: Key, u: User, i: nat)
    requires OnlyChanged(n, n', k, u) && i < |n.links| && n.links[i].user.None?
    requires RecordOk(log', k, u) && u.seqno >= 1
    requires Bare(n'.links[i]) == Bare(ToldHost(n.links[i], k, u))
    ensures WiredStep(log', n, n', i, "", true)
  {
    SeqnosOf(n, n', k, u);
    var q, q' := n.links[i].sndq, n'.links[i].sndq;
    if n.links[i].host.Some? {
      var m := Report(k, u, u.oldchannel);
      assert q' == q + [m];
      assert MsgOk(log', n', m);
      forall x ensures News(q', n, n', x) {
        if x == k { assert Tells(q'[|q|], k, u.seqno); }
      }
    } else {
      assert q' == q;
    }
  }

  lemma QuietOn(log': map<Version, Value>, n: Node, n': Node, i: nat)
    requires i < |n.links| && i < |n'.links| && Bare(n'.links[i]) == Bare(n.links[i])
    ensures WiredStep(log', n, n', i, "", false)
    ensures (forall k :: Seqno(n', k) == Seqno(n, k)) ==> WiredStep(log', n, n', i, "", true)
  {
    hide Seqno;
  }

  /** The records after one has changed and the log has grown. */
  lemma NodeStaysOk(log: map<Version, Value>, log': map<Version, Value>, n: Node, n': Node, k: Key, u: User)
    requires NodeOk(log, n) && LogGrows(log, log') && OnlyChanged(n, n', k, u)
    requires RecordOk(log', k, u) && PointerOk(n', k, u)
    requires forall i :: 0 <= i < |n.links| ==> LinkOk(n'.my, n'.links[i]) && TerminalOk(n', i)
    requires forall x :: x in n.users && x != k ==> PointerOk(n', x, n.users[x])
    ensures NodeOk(log', n')
  {
    hide PointerOk, LinkOk, TerminalOk;
    SeqnosOf(n, n', k, u);
    forall x | x in n'.users ensures EntryOk(log', n', x) {
      if x != k { assert EntryOk(log, n, x); }
    }
    assert Listed(n') by {
      if k !in n.users { assert n'.order == n.order + [k]; }
    }
  }

  lemma GrowsTrivially(log: map<Version, Value>)
    ensures LogGrows(log, log)
  {
  }

  // ----- a record changes and everyone is told -----

  /** Every link but lp has been told of u. */
  ghost predicate ToldAll(n: Node, n': Node, k: Key, u: User, lp: nat) {
    && |n'.links| == |n.links|
    && forall i :: 0 <= i < |n.links| && i != lp ==> ToldOne(n.links[i], n'.links[i], k, u)
  }

  ghost predicate ToldOne(l: Link, l': Link, k: Key, u: User) {
    && (l.user.None? ==> Bare(l') == Bare(ToldHost(l, k, u)))
    && (l'.host.Some? ==> l'.host == l.host) && (l'.user == l.user || l'.user.None?)
  }

  lemma ToldMeansStep(log: map<Version, Value>, log': map<Version, Value>, n: Node, n': Node, k: Key, u: User, lp: nat)
    requires OnlyChanged(n, n', k, u) && ToldAll(n, n', k, u, lp) && NodeOk(log', n')
    requires RecordOk(log', k, u) && u.seqno >= 1 && u.seqno >= Seqno(n, k)
    ensures StepOk(log', n, n', lp)
  {
    hide RecordOk, NodeOk, WiredStep;
    SeqnosOf(n, n', k, u);
    forall i | 0 <= i < |n.links| && i != lp ensures OtherLink(log', n, n', i) {
      assert ToldOne(n.links[i], n'.links[i], k, u);
      if n.links[i].user.None? { AnnouncedOn(log', n, n', k, u, i); }
    }
  }

  /** send_user_change_msg from a state with only lp locked. */
  lemma BroadcastTells(n: Node, lp: nat, k: Key, u: User, links: seq<Link>)
    requires |links| == |n.links| && lp < |n.links|
    requires forall i :: 0 <= i < |links| && i != lp ==> Bare(links[i]) == links[i]
    requires forall i :: 0 <= i < |links| && i != lp && n.links[i].user.None? ==> Bare(n.links[i]) == links[i]
    requires forall i :: 0 <= i < |links| && i != lp ==>
               && (links[i].host.Some? ==> links[i].host == n.links[i].host)
               && (links[i].user == n.links[i].user || links[i].user.None?)
    ensures var r := Broadcast(Put(n, k, u).(links := links), k);
            OnlyChanged(n, r, k, u) && ToldAll(n, r, k, u, lp)
    ensures links[lp].locked ==> Broadcast(Put(n, k, u).(links := links), k).links[lp] == links[lp]
  {
    var r := Broadcast(Put(n, k, u).(links := links), k);
    forall i | 0 <= i < |n.links| && i != lp ensures ToldOne(n.links[i], r.links[i], k, u) {
    }
  }

  /** Pointers stay right where no link loses its host or a user but k. */
  ghost predicate LinksServe(n: Node, n': Node, k: Key) {
    && |n'.links| == |n.links| && n'.my == n.my
    && forall i :: 0 <= i < |n.links| ==> LinkServes(n.my, n.links[i], n'.links[i], k)
  }

  ghost predicate LinkServes(my: Name, l: Link, l': Link, k: Key) {
    && LinkOk(my, l')
    && (l.host.Some? ==> l'.host.Some?)
    && (l.user.Some? && l.user != Some(k) ==> l'.user == l.user)
    && (l'.user.Some? ==> l'.user == l.user || l'.user == Some(k))
  }

  /** The terminals of k are the one its record names. */
  ghost predicate OwnTerminal(n: Node, k: Key, u: User) {
    forall i :: 0 <= i < |n.links| && n.links[i].user == Some(k) ==> u.link == Some(i) && u.channel >= 0
  }

  lemma UpdateKeeps(log: map<Version, Value>, log': map<Version, Value>, n: Node, n': Node, k: Key, u: User, lp: nat)
    requires NodeOk(log, n) && LogGrows(log, log')
    requires OnlyChanged(n, n', k, u) && ToldAll(n, n', k, u, lp) && LinksServe(n, n', k)
    requires RecordOk(log', k, u) && PointerOk(n', k, u) && u.seqno >= 1 && u.seqno >= Seqno(n, k)
    requires OwnTerminal(n', k, u)
    ensures StepOk(log', n, n', lp)
  {
    hide RecordOk, ToldAll, LogGrows, StepOk;
    SeqnosOf(n, n', k, u);
    forall x | x in n.users && x != k ensures PointerOk(n', x, n.users[x]) {
      assert EntryOk(log, n, x) && PointerOk(n, x, n.users[x]);
      var l := n.users[x].link;
      if l.Some? { assert LinkServes(n.my, n.links[l.value], n'.links[l.value], k); }
    }
    forall i | 0 <= i < |n.links| ensures LinkOk(n'.my, n'.links[i]) && TerminalOk(n', i) {
      assert LinkServes(n.my, n.links[i], n'.links[i], k) && TerminalOk(n, i);
    }
    NodeStaysOk(log, log', n, n', k, u);
    ToldMeansStep(log, log', n, n', k, u, lp);
  }

  // ----- h_user_command -----

  lemma LockedIs(n: Node, lp: nat)
    requires lp < |n.links|
    ensures var n' := Locked(n, lp);
            && n'.my == n.my && n'.users == n.users && n'.order == n.order && |n'.links| == |n.links|
            && n'.links[lp] == n.links[lp].(locked := true)
            && forall i :: 0 <= i < |n.links| && i != lp ==> n'.links[i] == Bare(n.links[i])
  {
  }

  /** What a message must be for h_user_command. */
  ghost predicate Genuine(log: map<Version, Value>, n: Node, m: Msg) {
    && m.UserMsg? && m.seqno >= 1 && Knows(log, m.key, m.seqno, m.channel, m.note) && (m.channel >= 0 ==> m.note != "")
    && (m.key.host == n.my ==> m.seqno <= Seqno(n, m.key))
  }

  lemma HUserKeeps(log: map<Version, Value>, n: Node, lp: nat, m: Msg, now: int)
    requires NodeOk(log, n) && lp < |n.links| && n.links[lp].host.Some? && Genuine(log, n, m)
    ensures var n' := HUser(Locked(n, lp), lp, m, now);
            && StepOk(log, n, n', lp) && Bare(n'.links[lp]) == Bare(n.links[lp])
            && (m.seqno > Seqno(n, m.key) ==>
                 OnlyChanged(n, n', m.key, Lookup(n', m.key)) && Seqno(n', m.key) == m.seqno)
            && (m.seqno <= Seqno(n, m.key) ==> forall k :: Lookup(n', k) == Lookup(n, k))
            && (m.key.host == n.my ==> m.seqno <= Seqno(n, m.key))
  {
    hide Knows, Locked, StepOk, NodeOk, Broadcast, Put;
    LockedIs(n, lp);
    if m.seqno > Seqno(n, m.key) {
      AcceptedKeeps(log, n, lp, m, now);
    } else {
      IgnoredKeeps(log, n, lp, m.key);
      PutKeepsLinks(Locked(n, lp), m.key, Lookup(n, m.key));
    }
  }

  lemma PutKeepsLinks(n: Node, k: Key, u: User)
    ensures Put(n, k, u).links == n.links
  {
  }

  lemma AcceptedKeeps(log: map<Version, Value>, n: Node, lp: nat, m: Msg, now: int)
    requires NodeOk(log, n) && lp < |n.links| && n.links[lp].host.Some? && Genuine(log, n, m)
    requires m.seqno > Seqno(n, m.key)
    ensures var n' := HUser(Locked(n, lp), lp, m, now);
            && StepOk(log, n, n', lp) && Bare(n'.links[lp]) == Bare(n.links[lp])
            && OnlyChanged(n, n', m.key, Lookup(n', m.key)) && Seqno(n', m.key) == m.seqno
  {
    hide Knows, Locked, StepOk, NodeOk, LinkOk, ToldAll, RecordOk, Broadcast, LinksServe, Put, PointerOk;
    LockedIs(n, lp);
    GrowsTrivially(log);
    var n1 := Locked(n, lp);
    var k, u := m.key, Lookup(n, m.key);
    SeqnoOf(n, k, log);
    var u' := User(m.seqno, Some(lp), m.channel, u.channel, if m.note == "" then u.note else m.note);
    var n' := Broadcast(Put(n1, k, u'), k);
    KnownMeansOk(log, m, u');
    PutOn(n, n1, k, u');
    BroadcastTells(n, lp, k, u', n1.links);
    BroadcastKeepsEnds(Put(n1, k, u'), k);
    SameLinksServe(log, n, n', k, u', lp);
    AcceptedPoints(n', k, u', lp);
    ForeignTerminal(log, n, n', k, u');
    UpdateKeeps(log, log, n, n', k, u', lp);
    SeqnosOf(n, n', k, u');
  }

  /** A user of another host has no terminal here. */
  lemma ForeignTerminal(log: map<Version, Value>, n: Node, n': Node, k: Key, u: User)
    requires NodeOk(log, n) && k.host != n.my && |n'.links| == |n.links|
    requires forall i :: 0 <= i < |n.links| ==> n'.links[i].user == n.links[i].user
    ensures OwnTerminal(n', k, u)
  {
    forall i | 0 <= i < |n'.links| ensures n'.links[i].user != Some(k) {
      assert LinkOk(n.my, n.links[i]);
    }
  }

  lemma PutOn(n: Node, n1: Node, k: Key, u: User)
    requires n1.my == n.my && n1.users == n.users && n1.order == n.order
    ensures Put(n1, k, u) == Put(n, k, u).(links := n1.links)
  {
  }

  lemma BroadcastKeepsEnds(n: Node, k: Key)
    ensures var r := Broadcast(n, k);
            |r.links| == |n.links| && forall i :: 0 <= i < |n.links| ==>
                r.links[i].user == n.links[i].user && r.links[i].host == n.links[i].host
  {
  }

  lemma AcceptedPoints(n: Node, k: Key, u: User, lp: nat)
    requires u.link == Some(lp) && lp < |n.links| && n.links[lp].host.Some? && k.host != n.my
    ensures PointerOk(n, k, u)
  {
  }

  lemma SameLinksServe(log: map<Version, Value>, n: Node, n': Node, k: Key, u: User, lp: nat)
    requires NodeOk(log, n) && n'.my == n.my && |n'.links| == |n.links|
    requires forall i :: 0 <= i < |n.links| ==>
               n'.links[i].host == n.links[i].host && n'.links[i].user == n.links[i].user
    ensures LinksServe(n, n', k)
  {
    forall i | 0 <= i < |n.links| ensures LinkServes(n.my, n.links[i], n'.links[i], k) {
      assert LinkOk(n.my, n.links[i]);
    }
  }

  lemma KnownMeansOk(log: map<Version, Value>, m: Msg, u: User)
    requires m.UserMsg? && m.seqno >= 1 && Knows(log, m.key, m.seqno, m.channel, m.note)
    requires (m.channel >= 0 ==> m.note != "")
    requires u.seqno == m.seqno && u.channel == m.channel && u.note != "" && (m.note != "" ==> u.note == m.note)
    ensures RecordOk(log, m.key, u)
  {
  }

  /** A message that is ignored leaves at most an empty record behind. */
  lemma IgnoredKeeps(log: map<Version, Value>, n: Node, lp: nat, k: Key)
    requires NodeOk(log, n) && lp < |n.links|
    ensures var n' := Put(Locked(n, lp), k, Lookup(n, k));
            StepOk(log, n, n', lp) && forall x :: Lookup(n', x) == Lookup(n, x)
  {
    hide Knows, WiredStep, Locked, NodeOk, Put;
    LockedIs(n, lp);
    var n' := Put(Locked(n, lp), k, Lookup(n, k));
    IgnoredNode(log, n, lp, k);
    forall i | 0 <= i < |n.links| && i != lp ensures OtherLink(log, n, n', i) {
      QuietOn(log, n, n', i);
    }
  }

  lemma IgnoredNode(log: map<Version, Value>, n: Node, lp: nat, k: Key)
    requires NodeOk(log, n) && lp < |n.links|
    ensures var n' := Put(Locked(n, lp), k, Lookup(n, k));
            && NodeOk(log, n') && n'.my == n.my && n'.links == Locked(n, lp).links
            && forall x :: Lookup(n', x) == Lookup(n, x)
  {
    hide Knows, Locked;
    LockedIs(n, lp);
    GrowsTrivially(log);
    var u := Lookup(n, k);
    var n' := Put(Locked(n, lp), k, u);
    assert k in n.users ==> EntryOk(log, n, k);
    forall x | x in n.users ensures PointerOk(n', x, n.users[x]) {
      assert EntryOk(log, n, x);
    }
    forall i | 0 <= i < |n.links| ensures LinkOk(n'.my, n'.links[i]) && TerminalOk(n', i) {
      assert LinkOk(n.my, n.links[i]) && TerminalOk(n, i);
    }
    NodeStaysOk(log, log, n, n', k, u);
  }

  // ----- commands of a terminal -----

  /** The log after a step of the home host of k. */
  function Recorded(log: map<Version, Value>, n: Node, n': Node, k: Key): map<Version, Value> {
    if Seqno(n', k) == Seqno(n, k) then log
    else log[Version(k, Seqno(n', k)) := Value(Lookup(n', k).channel, Lookup(n', k).note)]
  }

  /** The home host has not been overtaken. */
  ghost predicate Newest(log: map<Version, Value>, n: Node, k: Key) {
    k.host == n.my && forall v :: v in log && v.key == k ==> v.seqno <= Seqno(n, k)
  }

  ghost predicate AtTerminal(n: Node, lp: nat) {
    lp < |n.links| && n.links[lp].host.None?
  }

  /** What a command of the user k on the terminal lp does. */
  ghost predicate CommandOk(log: map<Version, Value>, n: Node, n': Node, lp: nat, k: Key) {
    var log' := Recorded(log, n, n', k);
    && LogGrows(log, log') && StepOk(log', n, n', lp)
    && (forall x :: x != k ==> Lookup(n', x) == Lookup(n, x))
    && lp < |n'.links| && n'.links[lp].host.None?
  }

  lemma SeqnoOf(n: Node, k: Key, log: map<Version, Value>)
    requires NodeOk(log, n)
    ensures Seqno(n, k) >= 0 && Lookup(n, k).note != "" && (Lookup(n, k).seqno == 0 ==> Lookup(n, k).channel == -1)
    ensures PointerOk(n, k, Lookup(n, k))
  {
    assert k in n.users ==> EntryOk(log, n, k);
  }

  /** A change by the home host. */
  lemma HomeUpdateKeeps(log: map<Version, Value>, n: Node, n': Node, k: Key, u: User, lp: nat)
    requires NodeOk(log, n) && Newest(log, n, k) && AtTerminal(n, lp)
    requires OnlyChanged(n, n', k, u) && ToldAll(n, n', k, u, lp) && LinksServe(n, n', k) && n'.links[lp].host.None?
    requires PointerOk(n', k, u) && OwnTerminal(n', k, u) && u.seqno > Seqno(n, k) && u.note != ""
    ensures CommandOk(log, n, n', lp, k)
  {
    hide LinksServe, ToldAll, StepOk, PointerOk, NodeOk, OwnTerminal;
    SeqnoOf(n, k, log);
    SeqnosOf(n, n', k, u);
    UpdateKeeps(log, Recorded(log, n, n', k), n, n', k, u, lp);
  }

  /** A command that is only answered. */
  lemma ReplyKeeps(log: map<Version, Value>, n: Node, lp: nat, k: Key)
    requires NodeOk(log, n) && AtTerminal(n, lp)
    ensures CommandOk(log, n, Send(Locked(n, lp), lp, Reply), lp, k)
  {
    hide Knows, WiredStep, Locked, RecordOk;
    LockedIs(n, lp);
    GrowsTrivially(log);
    var n' := Send(Locked(n, lp), lp, Reply);
    forall x | x in n'.users ensures EntryOk(log, n', x) {
      assert EntryOk(log, n, x);
    }
    forall i | 0 <= i < |n.links| ensures LinkOk(n'.my, n'.links[i]) && TerminalOk(n', i) {
      assert LinkOk(n.my, n.links[i]) && TerminalOk(n, i);
    }
    forall x ensures Lookup(n', x) == Lookup(n, x) {}
    forall i | 0 <= i < |n.links| && i != lp ensures OtherLink(log, n, n', i) {
      QuietOn(log, n, n', i);
    }
  }

  lemma ChannelKeeps(log: map<Version, Value>, n: Node, lp: nat, k: Key, channel: int, now: int)
    requires NodeOk(log, n) && Newest(log, n, k) && AtTerminal(n, lp) && n.links[lp].user == Some(k)
    ensures CommandOk(log, n, ChannelCommand(Locked(n, lp), lp, k, channel, now), lp, k)
  {
    hide Locked, CommandOk, ToldAll, LinkOk, EntryOk;
    LockedIs(n, lp);
    SeqnoOf(n, k, log);
    var n1 := Locked(n, lp);
    var u := Lookup(n, k);
    if channel != Bounded(channel) || channel == u.channel {
      ReplyKeeps(log, n, lp, k);
    } else {
      var u' := u.(seqno := IncSeq(u.seqno, now), oldchannel := u.channel, channel := channel);
      BroadcastTells(n, lp, k, u', n1.links);
      ReplyAfter(n, Broadcast(Put(n1, k, u'), k), lp, k, u');
      var n' := ChannelCommand(n1, lp, k, channel, now);
      SameLinksServe(log, n, n', k, u', lp);
      HomeUpdateKeeps(log, n, n', k, u', lp);
    }
  }

  lemma ReplyAfter(n: Node, r: Node, lp: nat, k: Key, u: User)
    requires OnlyChanged(n, r, k, u) && ToldAll(n, r, k, u, lp) && lp < |n.links|
    ensures OnlyChanged(n, Send(r, lp, Reply), k, u) && ToldAll(n, Send(r, lp, Reply), k, u, lp)
  {
  }

  lemma NoteKeeps(log: map<Version, Value>, n: Node, lp: nat, k: Key, note: string, now: int)
    requires NodeOk(log, n) && Newest(log, n, k) && AtTerminal(n, lp) && n.links[lp].user == Some(k)
    ensures CommandOk(log, n, NoteCommand(Locked(n, lp), lp, k, note, now), lp, k)
  {
    hide Locked, CommandOk, ToldAll, LinkOk, EntryOk;
    LockedIs(n, lp);
    SeqnoOf(n, k, log);
    var n1 := Locked(n, lp);
    var u := Lookup(n, k);
    if note == "" || note == u.note {
      ReplyKeeps(log, n, lp, k);
    } else {
      var u' := u.(seqno := IncSeq(u.seqno, now), oldchannel := u.channel, note := note);
      BroadcastTells(n, lp, k, u', n1.links);
      ReplyAfter(n, Broadcast(Put(n1, k, u'), k), lp, k, u');
      var n' := NoteCommand(n1, lp, k, note, now);
      SameLinksServe(log, n, n', k, u', lp);
      HomeUpdateKeeps(log, n, n', k, u', lp);
    }
  }

  // ----- close_link on a terminal, and name_command -----

  lemma {:induction false} NobodyLeaves(n: Node, lp: nat, keys: seq<Key>, best: map<Name, nat>, now: int)
    requires forall x :: x in keys ==> !Leaves(n, lp, x)
    ensures Dropped(n, lp, keys, best, now) == n
    decreases keys
  {
    if keys != [] {
      assert forall x :: x in keys[1..] ==> x in keys;
      NobodyLeaves(n, lp, keys[1..], best, now);
    }
  }

  lemma {:induction false} OneLeaves(n: Node, lp: nat, keys: seq<Key>, k: Key, best: map<Name, nat>, now: int)
    requires k in keys && Leaves(n, lp, k) && k.host !in best
    requires forall x :: x in keys && Leaves(n, lp, x) ==> x == k
    ensures Dropped(n, lp, keys, best, now) == SignedOffOne(n, k, best, now)
    decreases keys
  {
    if keys[0] == k {
      var n' := SignedOffOne(n, k, best, now);
      forall x | x in keys[1..] ensures !Leaves(n', lp, x) {
        assert x in keys;
      }
      NobodyLeaves(n', lp, keys[1..], best, now);
    } else {
      assert keys[0] in keys && !Leaves(n, lp, keys[0]);
      assert forall x :: x in keys[1..] ==> x in keys;
      OneLeaves(n, lp, keys[1..], k, best, now);
    }
  }

  /** Only the user of a terminal can leave with it. */
  lemma WhoLeaves(log: map<Version, Value>, n: Node, lp: nat, x: Key)
    requires NodeOk(log, n) && AtTerminal(n, lp) && Leaves(n, lp, x)
    ensures n.links[lp].user == Some(x) && x.host == n.my
  {
    assert EntryOk(log, n, x);
  }

  lemma HangupKeeps(log: map<Version, Value>, n: Node, lp: nat, k: Key, best: map<Name, nat>, now: int)
    requires NodeOk(log, n) && Newest(log, n, k) && AtTerminal(n, lp) && n.my !in best
    requires n.links[lp].user.Some? ==> n.links[lp].user == Some(k)
    ensures CommandOk(log, n, CloseLink(n, lp, best, now), lp, k)
  {
    hide CommandOk, ToldAll, LinkOk, EntryOk, RecordOk;
    var n1 := Shut(n, lp);
    var n' := CloseLink(n, lp, best, now);
    SeqnoOf(n, k, log);
    forall x | x in n.order && Leaves(n1, lp, x) ensures x == k { WhoLeaves(log, n, lp, x); }
    if Leaves(n1, lp, k) {
      OneLeaves(n1, lp, n.order, k, best, now);
      assert n.order == n1.order;
      LeavingKeeps(log, n, lp, k, best, now);
    } else {
      NobodyLeaves(n1, lp, n.order, best, now);
      ShutQuietly(log, n, lp, k);
    }
  }

  lemma LeavingKeeps(log: map<Version, Value>, n: Node, lp: nat, k: Key, best: map<Name, nat>, now: int)
    requires NodeOk(log, n) && Newest(log, n, k) && AtTerminal(n, lp) && n.my !in best && Leaves(n, lp, k)
    requires n.links[lp].user.Some? ==> n.links[lp].user == Some(k)
    ensures CommandOk(log, n, SignedOffOne(Shut(n, lp), k, best, now), lp, k)
  {
    hide CommandOk, ToldAll, LinkOk, EntryOk, RecordOk, Told;
    SeqnoOf(n, k, log);
    var n1 := Shut(n, lp);
    var n' := SignedOffOne(n1, k, best, now);
    var u := Lookup(n, k);
    var u' := User(IncSeq(u.seqno, now), None, -1, u.channel, u.note);
    BroadcastTells(n, lp, k, u', Unlocked(n1.links));
    assert n' == Broadcast(Put(n1, k, u').(links := Unlocked(n1.links)), k);
    BroadcastKeepsEnds(Put(n1, k, u').(links := Unlocked(n1.links)), k);
    ShutServes(log, n, n', lp, k);
    NoTerminalLeft(log, n, n', lp, k, u');
    HomeUpdateKeeps(log, n, n', k, u', lp);
  }

  lemma NoTerminalLeft(log: map<Version, Value>, n: Node, n': Node, lp: nat, k: Key, u: User)
    requires NodeOk(log, n) && Leaves(n, lp, k) && lp < |n.links| == |n'.links| && n'.links[lp].user.None?
    requires forall i :: 0 <= i < |n.links| && i != lp ==> n'.links[i].user == n.links[i].user
    ensures OwnTerminal(n', k, u)
  {
    forall i | 0 <= i < |n'.links| ensures n'.links[i].user != Some(k) {
      assert TerminalOk(n, i);
    }
  }

  lemma ShutServes(log: map<Version, Value>, n: Node, n': Node, lp: nat, k: Key)
    requires NodeOk(log, n) && AtTerminal(n, lp) && (n.links[lp].user.Some? ==> n.links[lp].user == Some(k))
    requires n'.my == n.my && |n'.links| == |n.links| && n'.links[lp].user.None? && n'.links[lp].host.None?
    requires forall i :: 0 <= i < |n.links| && i != lp ==>
               n'.links[i].host == n.links[i].host && n'.links[i].user == n.links[i].user
    ensures LinksServe(n, n', k)
  {
    forall i | 0 <= i < |n.links| ensures LinkServes(n.my, n.links[i], n'.links[i], k) {
      assert LinkOk(n.my, n.links[i]);
    }
  }

  lemma NobodyLeft(log: map<Version, Value>, n: Node, lp: nat, k: Key, x: Key)
    requires NodeOk(log, n) && AtTerminal(n, lp) && !Leaves(n, lp, k) && x in n.users
    requires n.links[lp].user.Some? ==> n.links[lp].user == Some(k)
    ensures n.users[x].link != Some(lp)
  {
    hide RecordOk;
    assert EntryOk(log, n, x);
  }

  lemma ShutQuietly(log: map<Version, Value>, n: Node, lp: nat, k: Key)
    requires NodeOk(log, n) && AtTerminal(n, lp) && !Leaves(n, lp, k)
    requires n.links[lp].user.Some? ==> n.links[lp].user == Some(k) && k.host == n.my
    ensures CommandOk(log, n, Shut(n, lp), lp, k)
  {
    hide RecordOk, WiredStep;
    GrowsTrivially(log);
    var n' := Shut(n, lp);
    forall x | x in n'.users ensures EntryOk(log, n', x) {
      assert EntryOk(log, n, x);
      NobodyLeft(log, n, lp, k, x);
    }
    forall i | 0 <= i < |n.links| ensures LinkOk(n'.my, n'.links[i]) && TerminalOk(n', i) {
      assert LinkOk(n.my, n.links[i]) && TerminalOk(n, i);
    }
    forall x ensures Lookup(n', x) == Lookup(n, x) {}
    forall i | 0 <= i < |n.links| && i != lp ensures OtherLink(log, n, n', i) {
      QuietOn(log, n, n', i);
    }
  }

  lemma NameKeeps(log: map<Version, Value>, n: Node, lp: nat, name: Name, channel: int, note: string,
      best: map<Name, nat>, now: int)
    requires NodeOk(log, n) && AtTerminal(n, lp) && n.links[lp].user.None? && Newest(log, n, Key(name, n.my))
    requires name != ""
    ensures CommandOk(log, n, NameCommand(Locked(n, lp), lp, name, channel, note, best, now), lp, Key(name, n.my))
  {
    hide Locked, CommandOk, ToldAll, LinkOk, RecordOk, PointerOk, OthersKept, LinksServe, CloseLink, Broadcast, NamedOn;
    LockedIs(n, lp);
    var n0 := Locked(n, lp);
    var k := Key(name, n.my);
    var u := Lookup(n, k);
    SeqnoOf(n, k, log);
    var s := IncSeq(u.seqno, now);
    var n1 := Put(n0, k, u.(seqno := s, link := Some(lp)));
    var n2 := if u.channel >= 0 && u.link.Some? && u.link.value < |n.links|
        then CloseLink(n1, u.link.value, best, now) else n1;
    FormerLinkCloses(log, n, lp, k, s, best, now);
    var l := Welcomed(n2.links[lp], k, channel);
    var u' := User(s, Some(lp), Bounded(channel), u.channel, if note == "" then NO_NOTE else note);
    var n' := NameCommand(n0, lp, name, channel, note, best, now);
    NamedOnIs(n2, lp, k, channel, note);
    assert Lookup(n2, k) == u.(seqno := s, link := Some(lp));
    PutTwice(n, n2, k, u.(seqno := s, link := Some(lp)), u', n2.links[lp := l]);
    NamedTells(log, n, n2, lp, k, u', l);
    NamedPoints(n', k, u', lp);
    assert OwnTerminal(n', k, u');
    HomeUpdateKeeps(log, n, n', k, u', lp);
  }

  /** The terminal of a user who has logged on. */
  function Welcomed(l: Link, k: Key, channel: int): Link {
    var l1 := SentTo(l.(user := Some(k)), Reply);
    if channel == Bounded(channel) then l1 else SentTo(l1, Reply)
  }

  lemma NamedOnIs(n: Node, lp: nat, k: Key, channel: int, note: string)
    requires lp < |n.links|
    ensures var u := Lookup(n, k);
            var u' := u.(oldchannel := u.channel, channel := Bounded(channel),
                note := if note == "" then NO_NOTE else note);
            NamedOn(n, lp, k, channel, note) ==
                Broadcast(Put(n, k, u').(links := n.links[lp := Welcomed(n.links[lp], k, channel)]), k)
  {
    hide Broadcast;
    var u := Lookup(n, k);
    var u' := u.(oldchannel := u.channel, channel := Bounded(channel), note := if note == "" then NO_NOTE else note);
    var n1 := Send(n.(links := n.links[lp := n.links[lp].(user := Some(k))]), lp, Reply);
    var n2 := if channel == Bounded(channel) then n1 else Send(n1, lp, Reply);
    assert n2.links == n.links[lp := Welcomed(n.links[lp], k, channel)];
    assert Put(n2, k, u') == Put(n, k, u').(links := n.links[lp := Welcomed(n.links[lp], k, channel)]);
  }

  lemma NamedPoints(n: Node, k: Key, u: User, lp: nat)
    requires u.link == Some(lp) && lp < |n.links| && n.links[lp].user == Some(k) && u.channel >= 0 && k.host == n.my
    ensures PointerOk(n, k, u)
  {
  }

  lemma PutTwice(n: Node, n2: Node, k: Key, u: User, u': User, links: seq<Link>)
    requires n2.my == n.my && n2.users == n.users[k := u] && n2.order == Put(n, k, u).order
    ensures Put(n2, k, u').(links := links) == Put(n, k, u').(links := links)
  {
  }

  /** A link is unlocked, and closed if it was the former terminal of k. */
  ghost predicate KeptOrClosed(l: Link, l': Link, k: Key) {
    l' == if l.user == Some(k) then Bare(l).(open := false, user := None, host := None) else Bare(l)
  }

  ghost predicate OthersKept(n: Node, n': Node, lp: nat, k: Key) {
    |n'.links| == |n.links| && forall i :: 0 <= i < |n.links| && i != lp ==> KeptOrClosed(n.links[i], n'.links[i], k)
  }

  /** When a user logs on again the former terminal is closed, and nobody else with it. */
  lemma FormerLinkCloses(log: map<Version, Value>, n: Node, lp: nat, k: Key, s: int, best: map<Name, nat>, now: int)
    requires NodeOk(log, n) && AtTerminal(n, lp) && n.links[lp].user.None? && k.host == n.my
    ensures var u := Lookup(n, k);
            var n1 := Put(Locked(n, lp), k, u.(seqno := s, link := Some(lp)));
            var n2 := if u.channel >= 0 && u.link.Some? && u.link.value < |n.links|
                then CloseLink(n1, u.link.value, best, now) else n1;
            && n2.my == n.my && n2.users == n1.users && n2.order == n1.order && |n2.links| == |n.links|
            && n2.links[lp] == n.links[lp].(locked := true)
            && OthersKept(n, n2, lp, k)
  {
    hide Locked, RecordOk;
    LockedIs(n, lp);
    SeqnoOf(n, k, log);
    var u := Lookup(n, k);
    var n1 := Put(Locked(n, lp), k, u.(seqno := s, link := Some(lp)));
    if u.channel >= 0 && u.link.Some? && u.link.value < |n.links| {
      var l := u.link.value;
      assert n.links[l].user == Some(k) && l != lp;
      assert LinkOk(n.my, n.links[l]);
      forall x ensures !Leaves(Shut(n1, l), l, x) {
        if x != k && Leaves(Shut(n1, l), l, x) { WhoLeaves(log, n, l, x); }
      }
      NobodyLeaves(Shut(n1, l), l, n1.order, best, now);
    }
  }

  /** The news of a user who has logged on. */
  lemma NamedTells(log: map<Version, Value>, n: Node, n2: Node, lp: nat, k: Key, u: User, l: Link)
    requires NodeOk(log, n) && OthersKept(n, n2, lp, k) && AtTerminal(n, lp) && n.links[lp].user.None?
    requires l.locked && l.user == Some(k) && l.host.None? && k.host == n.my
    ensures var links := n2.links[lp := l]; var r := Broadcast(Put(n, k, u).(links := links), k);
            && OnlyChanged(n, r, k, u) && ToldAll(n, r, k, u, lp) && LinksServe(n, r, k) && r.links[lp] == l
            && forall i :: 0 <= i < |r.links| && i != lp ==> r.links[i].user != Some(k)
  {
    hide RecordOk, Told, PointerOk;
    var links := n2.links[lp := l];
    var r := Broadcast(Put(n, k, u).(links := links), k);
    forall i | 0 <= i < |n.links| && i != lp
      ensures Bare(links[i]) == links[i] && KeptOrClosed(n.links[i], links[i], k)
    {
      assert KeptOrClosed(n.links[i], n2.links[i], k);
    }
    BroadcastTells(n, lp, k, u, links);
    forall i | 0 <= i < |n.links|
      ensures LinkServes(n.my, n.links[i], r.links[i], k) && (i != lp ==> r.links[i].user != Some(k))
    {
      assert LinkOk(n.my, n.links[i]);
      if i != lp { OthersServe(n.my, r.users, n.links[i], links[i], k, u); }
    }
  }

  /** A link that is not the new terminal serves those it served, and not k. */
  lemma OthersServe(my: Name, users: map<Key, User>, l: Link, l1: Link, k: Key, u: User)
    requires LinkOk(my, l) && KeptOrClosed(l, l1, k)
    ensures var r := Told(users, l1, k, u); LinkServes(my, l, r, k) && r.user != Some(k)
  {
    ToldKeepsEnds(users, l1, k, u);
  }

  lemma ToldKeepsEnds(users: map<Key, User>, l: Link, k: Key, u: User)
    ensures Told(users, l, k, u).user == l.user && Told(users, l, k, u).host == l.host
  {
  }

  // ----- h_host_command -----

  lemma {:induction false} NothingReplaced(n: Node, lp: nat, name: Name, i: nat, best: map<Name, nat>, now: int)
    requires forall j :: 0 <= j < |n.links| && j != lp ==> n.links[j].host != Some(name)
    ensures ReplacedAll(n, lp, name, i, best, now) == n
    decreases |n.links| - i
  {
    if i < |n.links| { NothingReplaced(n, lp, name, i + 1, best, now); }
  }

  lemma {:induction false} DumpTellsAll(users: map<Key, User>, order: seq<Key>, k: Key)
    requires k in users && k in order && users[k].seqno > 0
    ensures Covered(Dump(users, order), k, users[k].seqno)
  {
    var d := Dump(users, order);
    if order[0] == k {
      assert Tells(d[0], k, users[k].seqno);
    } else {
      DumpTellsAll(users, order[1..], k);
      var rest := Dump(users, order[1..]);
      var j :| 0 <= j < |rest| && Tells(rest[j], k, users[k].seqno);
      assert d[j + |d| - |rest|] == rest[j];
    }
  }

  lemma {:induction false} DumpIsOk(log: map<Version, Value>, n: Node, order: seq<Key>, x: nat)
    requires NodeOk(log, n) && x < |Dump(n.users, order)|
    ensures MsgOk(log, n, Dump(n.users, order)[x])
  {
    var d, rest := Dump(n.users, order), Dump(n.users, order[1..]);
    if x >= |d| - |rest| {
      assert d[x] == rest[x - (|d| - |rest|)];
      DumpIsOk(log, n, order[1..], x - (|d| - |rest|));
    } else {
      assert EntryOk(log, n, order[0]);
    }
  }

  /** A host introduces itself on lp. */
  lemma HHostKeeps(log: map<Version, Value>, n: Node, lp: nat, name: Name, best: map<Name, nat>, now: int)
    requires NodeOk(log, n) && AtTerminal(n, lp) && n.links[lp].user.None? && name != "" && name != n.my
    requires forall j :: 0 <= j < |n.links| && j != lp ==> n.links[j].host != Some(name)
    ensures var n' := HHost(Locked(n, lp), lp, name, best, now);
            && StepOk(log, n, n', lp) && n'.links[lp].host == Some(name)
            && WiredStep(log, n, n', lp, name, true)
            && forall k :: Lookup(n', k) == Lookup(n, k)
  {
    hide Locked, RecordOk, MsgOk, Dump;
    LockedIs(n, lp);
    GrowsTrivially(log);
    var n0 := Locked(n, lp);
    var n1 := n0.(links := n0.links[lp := n0.links[lp].(host := Some(name))]);
    NothingReplaced(n1, lp, name, 0, best, now);
    var n' := HHost(n0, lp, name, best, now);
    forall x | x in n'.users ensures EntryOk(log, n', x) {
      assert EntryOk(log, n, x);
    }
    forall i | 0 <= i < |n.links| ensures LinkOk(n'.my, n'.links[i]) && TerminalOk(n', i) {
      assert LinkOk(n.my, n.links[i]) && TerminalOk(n, i);
    }
    forall x ensures Lookup(n', x) == Lookup(n, x) {}
    assert NodeOk(log, n');
    forall i | 0 <= i < |n.links| && i != lp ensures OtherLink(log, n, n', i) {
      QuietOn(log, n, n', i);
    }
    IntroducesItself(log, n, n', lp, name);
  }

  lemma IntroducesItself(log: map<Version, Value>, n: Node, n': Node, lp: nat, name: Name)
    requires NodeOk(log, n') && lp < |n.links| == |n'.links| && n.links[lp].host.None?
    requires forall x :: Lookup(n', x) == Lookup(n, x)
    requires Bare(n'.links[lp]) ==
               Bare(n.links[lp]).(host := Some(name),
                                  sndq := n.links[lp].sndq + ([HostMsg(n'.my)] + Dump(n'.users, n'.order)))
    ensures WiredStep(log, n, n', lp, name, true)
  {
    hide RecordOk, Dump, PointerOk;
    var q, q', d := n.links[lp].sndq, n'.links[lp].sndq, Dump(n'.users, n'.order);
    assert q'[..|q|] == q && q'[|q|..] == [HostMsg(n'.my)] + d;
    forall x | |q| <= x < |q'| ensures MsgOk(log, n', q'[x]) {
      if x > |q| {
        assert q'[x] == d[x - |q| - 1];
        DumpIsOk(log, n', n'.order, x - |q| - 1);
      }
    }
    forall k ensures All(q', n', k) {
      if Seqno(n', k) > 0 {
        DumpTellsAll(n'.users, n'.order, k);
        var j :| 0 <= j < |d| && Tells(d[j], k, Seqno(n', k));
        assert q'[|q| + 1 + j] == d[j];
      }
    }
  }

  // ----- how much a line makes a host send -----

  /** A line that is taken is told to every link once at most, and not to lp. */
  lemma AcceptedSends(n: Node, lp: nat, m: Msg, now: int, i: nat)
    requires lp < |n.links| && i < |n.links| && m.UserMsg? && m.seqno > Seqno(n, m.key) && m.key.host != n.my
    ensures var n' := HUser(Locked(n, lp), lp, m, now);
            i < |n'.links| && |n'.links[i].sndq| <= |n.links[i].sndq| + if i == lp then 0 else 1
  {
    hide Locked;
    LockedIs(n, lp);
  }

  /** The versions that a dump reports. */
  ghost function Reported(users: map<Key, User>, order: seq<Key>): set<Version> {
    if order == [] then {}
    else
      (if order[0] in users && (users[order[0]].channel >= 0 || users[order[0]].seqno != 0)
       then {Version(order[0], users[order[0]].seqno)} else {})
      + Reported(users, order[1..])
  }

  lemma {:induction false} DumpReports(log: map<Version, Value>, n: Node, order: seq<Key>)
    requires NodeOk(log, n) && forall i, j :: 0 <= i < j < |order| ==> order[i] != order[j]
    ensures |Dump(n.users, order)| == |Reported(n.users, order)|
    ensures forall v :: v in Reported(n.users, order) ==> v in log && v.key in order
    decreases |order|
  {
    hide NodeOk, Report;
    if order != [] {
      var k, rest := order[0], Reported(n.users, order[1..]);
      DumpReports(log, n, order[1..]);
      if k in n.users && (n.users[k].channel >= 0 || n.users[k].seqno != 0) {
        ReportIsKnown(log, n, k);
        NewOne(rest, Version(k, n.users[k].seqno));
      } else {
        assert {} + rest == rest;
      }
    }
  }

  lemma NewOne(a: set<Version>, v: Version)
    requires v !in a
    ensures |{v} + a| == 1 + |a|
  {
  }

  lemma ReportIsKnown(log: map<Version, Value>, n: Node, k: Key)
    requires NodeOk(log, n) && k in n.users && (n.users[k].channel >= 0 || n.users[k].seqno != 0)
    ensures Version(k, n.users[k].seqno) in log
  {
    hide PointerOk;
    assert EntryOk(log, n, k);
  }

  /** A dump has no more lines than there are versions. */
  lemma DumpIsShort(log: map<Version, Value>, n: Node)
    requires NodeOk(log, n)
    ensures |Dump(n.users, n.order)| <= |log|
  {
    hide Dump, Reported;
    DumpReports(log, n, n.order);
    var r := Reported(n.users, n.order);
    assert r <= log.Keys;
    Smaller(r, log.Keys);
  }

  lemma Smaller<T>(a: set<T>, b: set<T>)
    requires a <= b
    ensures |a| <= |b|
  {
    var rest := b - a;
    assert b == a + rest;
  }

  /** A host that is introduced is answered with an introduction and a dump. */
  lemma IntroductionSends(log: map<Version, Value>, n: Node, lp: nat, name: Name, best: map<Name, nat>,
      now: int, i: nat)
    requires NodeOk(log, n) && AtTerminal(n, lp) && name != "" && name != n.my && i < |n.links|
    requires forall j :: 0 <= j < |n.links| && j != lp ==> n.links[j].host != Some(name)
    ensures var n' := HHost(Locked(n, lp), lp, name, best, now);
            i < |n'.links| && |n'.links[i].sndq| <= |n.links[i].sndq| + if i == lp then 1 + |log| else 0
  {
    hide Locked, NodeOk, Dump;
    LockedIs(n, lp);
    DumpIsShort(log, n);
    var n0 := Locked(n, lp);
    NothingReplaced(n0.(links := n0.links[lp := n0.links[lp].(host := Some(name))]), lp, name, 0, best, now);
  }
}
