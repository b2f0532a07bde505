/** The convers daemon as the program keeps it: lists that every command changes
    in place. Each command does what ConversNode says of the host's state. */
module ConversHost {
  import opened Options
  import opened ConversNode
  import opened ConversMessages
  import opened ConversUnique
  import Md5

  class Conversd {
    const my: Name
    var users: map<Key, User>
    var order: seq<Key>
    var links: seq<Link>

    ghost function View(): Node
      reads this
    {
      Node(my, users, order, links)
    }

    constructor (my: Name)
      ensures View() == Node(my, map[], [], [])
    {
      this.my := my;
      users, order, links := map[], [], [];
    }

    /** clear_locks */
    method ClearLocks()
      modifies this`links
      ensures View() == old(View()).(links := Unlocked(old(links)))
    {
      for i := 0 to |links|
        invariant |links| == |old(links)|
        invariant forall k :: 0 <= k < i ==> links[k] == old(links)[k].(locked := false)
        invariant forall k :: i <= k < |links| ==> links[k] == old(links)[k]
      {
        links := links[i := links[i].(locked := false)];
      }
    }

    /** send_string */
    method SendString(lp: nat, m: Msg)
      requires lp < |links|
      modifies this`links
      ensures View() == Send(old(View()), lp, m)
    {
      var l := links[lp];
      links := links[lp := l.(sndq := l.sndq + [m], locked := true)];
    }

    /** userptr */
    method UserPtr(k: Key) returns (u: User)
      modifies this`users, this`order
      ensures u == Lookup(old(View()), k) && View() == Put(old(View()), k, u)
    {
      if k !in users {
        users := users[k := NewUser];
        order := order + [k];
      }
      u := users[k];
    }

    /** send_user_change_msg */
    method SendUserChangeMsg(k: Key)
      modifies this`links
      ensures View() == Broadcast(old(View()), k)
    {
      var up := if k in users then users[k] else NewUser;
      for i := 0 to |links|
        invariant |links| == |old(links)|
        invariant forall j :: 0 <= j < i ==> links[j] == Told(users, old(links)[j], k, up)
        invariant forall j :: i <= j < |links| ==> links[j] == old(links)[j]
      {
        var lp := links[i];
        if !lp.locked {
          if lp.user.Some? && up.oldchannel != up.channel {
            var c := if lp.user.value in users then users[lp.user.value].channel else -1;
            if c == up.oldchannel {
              SendString(i, if up.channel >= 0 then Switched(k.name, up.channel) else SignedOff(k.name));
            } else if c == up.channel {
              SendString(i, SignedOn(k.name));
            }
          } else if lp.host.Some? {
            SendString(i, UserMsg(k, up.seqno, up.oldchannel, up.channel, if up.channel >= 0 then up.note else ""));
          }
        }
      }
    }

    /** h_user_command */
    method HUserCommand(lp: nat, m: Msg, now: int)
      requires lp < |links| && m.UserMsg?
      modifies this
      ensures View() == HUser(old(View()), lp, m, now)
    {
      hide Broadcast;
      var up := UserPtr(m.key);
      var note := if m.note == "" then up.note else m.note;
      if m.seqno > up.seqno
         || (m.seqno == 0 && up.seqno == 0 && (up.link.None? || up.link == Some(lp))
             && (m.channel != up.channel || (m.channel >= 0 && note != up.note)))
      {
        if m.key.host == my {
          var s := IncSeq(m.seqno, now);
          users := users[m.key := up.(seqno := s)];
          assert users == old(users)[m.key := up.(seqno := s)];
          SendString(lp, UserMsg(m.key, s, m.channel, up.channel, up.note));
        } else {
          users := users[m.key := User(m.seqno, Some(lp), m.channel, up.channel, note)];
          assert users == old(users)[m.key := User(m.seqno, Some(lp), m.channel, up.channel, note)];
          SendUserChangeMsg(m.key);
        }
      }
    }

    /** close_link */
    method CloseLink(lp: nat, best: map<Name, nat>, now: int)
      requires lp < |links|
      modifies this
      ensures View() == ConversNode.CloseLink(old(View()), lp, best, now)
    {
      hide SignedOffOne;
      links := links[lp := links[lp].(open := false, user := None, host := None)];
      ghost var start := View();
      ghost var keys := order;
      assert keys[0..] == keys;
      var up := 0;
      var list := order;
      while up < |list|
        invariant 0 <= up <= |list| && list == keys
        invariant Dropped(start, lp, keys, best, now) == Dropped(View(), lp, keys[up..], best, now)
      {
        var k := list[up];
        assert keys[up..][1..] == keys[up + 1..];
        if k in users && users[k].channel >= 0 && users[k].link == Some(lp) {
          SignOff(k, best, now);
        }
        up := up + 1;
      }
    }

    /** The body of the loop of close_link over the users. */
    method SignOff(k: Key, best: map<Name, nat>, now: int)
      requires k in users
      modifies this
      ensures View() == SignedOffOne(old(View()), k, best, now)
    {
      hide Broadcast;
      var up := users[k];
      if k.host in best {
        users := users[k := up.(link := Some(best[k.host]))];
      } else {
        var s := up.seqno;
        if s != 0 {
          s := s + 1;
          if k.host == my && s < now { s := now; }
        }
        users := users[k := User(s, None, -1, up.channel, up.note)];
        ClearLocks();
        SendUserChangeMsg(k);
      }
    }

    /** name_command */
    method NameCommand(lp: nat, name: Name, channel: int, note: string, best: map<Name, nat>, now: int)
      requires lp < |links|
      modifies this
      ensures View() == ConversNode.NameCommand(old(View()), lp, name, channel, note, best, now)
    {
      hide Broadcast, Dropped;
      if name == "" { return; }
      var k := Key(name, my);
      var up := UserPtr(k);
      users := users[k := up.(seqno := IncSeq(up.seqno, now), link := Some(lp))];
      assert users == old(users)[k := up.(seqno := IncSeq(up.seqno, now), link := Some(lp))];
      if up.channel >= 0 && up.link.Some? && up.link.value < |links| {
        CloseLink(up.link.value, best, now);
      }
      LogOn(lp, k, channel, note);
    }

    /** The rest of name_command. */
    method LogOn(lp: nat, k: Key, channel: int, note: string)
      requires lp < |links|
      modifies this
      ensures View() == NamedOn(old(View()), lp, k, channel, note)
    {
      hide Broadcast;
      links := links[lp := links[lp].(user := Some(k))];
      SendString(lp, Reply);
      var newchannel := channel;
      if channel < 0 || channel > MAX_CHANNEL {
        SendString(lp, Reply);
        newchannel := 0;
      }
      var up := UserPtr(k);
      ghost var u := up.(oldchannel := up.channel, channel := newchannel, note := if note == "" then NO_NOTE else note);
      users := users[k := up.(oldchannel := up.channel, channel := newchannel,
          note := if note == "" then NO_NOTE else note)];
      assert users == old(users)[k := u];
      SendUserChangeMsg(k);
    }

    /** channel_command */
    method ChannelCommand(lp: nat, k: Key, newchannel: int, now: int)
      requires lp < |links| && k in users
      modifies this
      ensures View() == ConversNode.ChannelCommand(old(View()), lp, k, newchannel, now)
    {
      hide Broadcast;
      var up := users[k];
      if newchannel < 0 || newchannel > MAX_CHANNEL || newchannel == up.channel {
        SendString(lp, Reply);
        return;
      }
      users := users[k := up.(seqno := IncSeq(up.seqno, now), oldchannel := up.channel, channel := newchannel)];
      SendUserChangeMsg(k);
      SendString(lp, Reply);
    }

    /** note_command */
    method NoteCommand(lp: nat, k: Key, note: string, now: int)
      requires lp < |links| && k in users
      modifies this
      ensures View() == ConversNode.NoteCommand(old(View()), lp, k, note, now)
    {
      hide Broadcast;
      var up := users[k];
      if note != "" && note != up.note {
        users := users[k := up.(seqno := IncSeq(up.seqno, now), oldchannel := up.channel, note := note)];
        SendUserChangeMsg(k);
      }
      SendString(lp, Reply);
    }

    /** Every user reached over the former link is reached over lp. */
    method MoveUsers(former: nat, lp: nat)
      requires Listed(View())
      modifies this`users
      ensures users == Moved(old(users), former, lp)
    {
      ghost var moved := Moved(users, former, lp);
      for i := 0 to |order|
        invariant users.Keys == moved.Keys
        invariant forall k :: k in users ==> users[k] == if k in order[..i] then moved[k] else old(users)[k]
      {
        var k := order[i];
        assert order[..i + 1] == order[..i] + [k];
        if k in users && users[k].link == Some(former) {
          users := users[k := users[k].(link := Some(lp))];
        }
      }
      assert order[..|order|] == order;
    }

    /** The loop of h_host_command over the links. */
    method ReplaceLinks(lp: nat, name: Name, best: map<Name, nat>, now: int)
      requires Listed(View())
      modifies this
      ensures View() == ReplacedAll(old(View()), lp, name, 0, best, now) && Listed(View())
    {
      hide ConversNode.CloseLink, Moved, Listed;
      var lpold := 0;
      while lpold < |links|
        invariant 0 <= lpold && Listed(View())
        invariant ReplacedAll(old(View()), lp, name, 0, best, now) == ReplacedAll(View(), lp, name, lpold, best, now)
        decreases |links| - lpold
      {
        if lpold != lp && links[lpold].host == Some(name) {
          ghost var n := View();
          MoveUsers(lpold, lp);
          MovedListed(n, lpold, lp);
          CloseListed(View(), lpold, best, now);
          CloseLink(lpold, best, now);
        }
        lpold := lpold + 1;
      }
    }

    /** h_host_command */
    method HHostCommand(lp: nat, name: Name, best: map<Name, nat>, now: int)
      requires lp < |links| && Listed(View())
      modifies this
      ensures View() == HHost(old(View()), lp, name, best, now)
    {
      hide ConversNode.CloseLink, ReplacedAll, Listed;
      if name == "" { return; }
      if name == my {
        CloseLink(lp, best, now);
        return;
      }
      ghost var n := View();
      links := links[lp := links[lp].(host := Some(name))];
      RelinkedListed(n, links);
      ReplaceLinks(lp, name, best, now);
      SentAllSplits(links[lp], HostMsg(my), Dump(users, order));
      ghost var before := links;
      SendString(lp, HostMsg(my));
      SendDump(lp);
      assert links == before[lp := SentAll(before[lp], [HostMsg(my)] + Dump(users, order))];
    }

    /** The loop of h_host_command over the users. */
    method SendDump(lp: nat)
      requires lp < |links|
      modifies this`links
      ensures View() == old(View()).(links := old(links)[lp := SentAll(old(links)[lp], Dump(users, order))])
    {
      assert order[0..] == order;
      for i := 0 to |order|
        invariant |links| == |old(links)|
        invariant old(links)[lp := SentAll(old(links)[lp], Dump(users, order))] ==
                    links[lp := SentAll(links[lp], Dump(users, order[i..]))]
      {
        var k := order[i];
        assert order[i..][1..] == order[i + 1..];
        assert [] + Dump(users, order[i + 1..]) == Dump(users, order[i + 1..]);
        if k in users && (users[k].channel >= 0 || users[k].seqno != 0) {
          SentAllSplits(links[lp], Report(k, users[k], -1), Dump(users, order[i + 1..]));
          SendString(lp, UserMsg(k, users[k].seqno, -1, users[k].channel,
              if users[k].channel >= 0 then users[k].note else ""));
        }
      }
      assert order[|order|..] == [];
    }

    /** process_input for a line of another host. */
    method ProcessInput(lp: nat, m: Msg, best: map<Name, nat>, now: int)
      requires lp < |links| && Listed(View()) && (m.HostMsg? || m.UserMsg?)
      modifies this
      ensures View() == Input(old(View()), lp, m, best, now)
    {
      hide HHost, HUser, Listed;
      ghost var n := View();
      ClearLocks();
      links := links[lp := links[lp].(locked := true)];
      RelinkedListed(n, links);
      assert View() == Locked(n, lp);
      if links[lp].user.Some? {
        SendString(lp, Reply);
      } else if links[lp].host.Some? {
        if m.UserMsg? { HUserCommand(lp, m, now); }
      } else if m.HostMsg? {
        HHostCommand(lp, m.name, best, now);
      }
    }

    /** The loop of send_msg_to_channel and send_msg_to_user over the users. */
    method SendCopies(a: Audience, m: Msg, line: Msg)
      modifies this`links
      ensures View() == CopyAll(old(View()), order, a, m, line)
    {
      hide Wants;
      ghost var n := View();
      assert order[0..] == order;
      for i := 0 to |order|
        invariant CopyAll(n, order, a, m, line) == CopyAll(View(), order[i..], a, m, line)
      {
        var k := order[i];
        assert order[i..][1..] == order[i + 1..];
        if k in users && Wants(users[k], k, a) && users[k].link.Some? && users[k].link.value < |links| {
          var lp := users[k].link.value;
          if !links[lp].locked {
            SendString(lp, if links[lp].host.Some? then m else line);
          }
        }
      }
    }

    /** send_msg_to_channel and send_msg_to_user for a message of another host */
    method Relay(index: UniqueIndex, m: Msg, now: int) returns (passed: bool)
      requires IsText(m) && |HostLine(m)| < 0x1_0000_0000
      requires Listed(View()) && index.Valid() && index.last <= now
      modifies this`links, index, index.strings, index.stringstail
      ensures index.Valid() && index.last <= now
      ensures passed <==>
                m.text != "" && !SeenSince(old(index.history), Md5.Digest(HostLine(m)), now - CHECK_UNIQUE_TIME)
      ensures index.history == old(index.history) +
                if passed then [Accepted(Md5.Digest(HostLine(m)), now, CHECK_UNIQUE_TIME)] else []
      ensures if passed then OneCopyEach(old(View()), View(), AudienceOf(m), m, LineOf(m)) else View() == old(View())
    {
      hide OneCopyEach, SeenSince, HostLine, Md5.Digest, LineOf;
      if m.text == "" { return false; }
      passed := index.IsStringUnique(HostLine(m), CHECK_UNIQUE_TIME, now);
      if passed {
        ghost var n := View();
        SendCopies(AudienceOf(m), m, LineOf(m));
        CopiesAreOneEach(n, AudienceOf(m), m, LineOf(m));
      }
    }

    /** process_input for h_cmsg_command and h_umsg_command: the link the message came
        in on is locked and gets no copy. */
    method TextInput(index: UniqueIndex, lp: nat, m: Msg, now: int) returns (passed: bool)
      requires IsText(m) && |HostLine(m)| < 0x1_0000_0000 && lp < |links| && links[lp].host.Some?
      requires Listed(View()) && index.Valid() && index.last <= now
      modifies this`links, index, index.strings, index.stringstail
      ensures index.Valid() && index.last <= now && Listed(View())
      ensures passed <==>
                m.text != "" && !SeenSince(old(index.history), Md5.Digest(HostLine(m)), now - CHECK_UNIQUE_TIME)
      ensures index.history == old(index.history) +
                if passed then [Accepted(Md5.Digest(HostLine(m)), now, CHECK_UNIQUE_TIME)] else []
      ensures if passed then OneCopyEach(Locked(old(View()), lp), View(), AudienceOf(m), m, LineOf(m))
              else View() == Locked(old(View()), lp)
    {
      hide OneCopyEach, SeenSince, HostLine, Md5.Digest, LineOf, Listed;
      ghost var n := View();
      ClearLocks();
      links := links[lp := links[lp].(locked := true)];
      assert View() == Locked(n, lp);
      LockedListed(n, lp);
      passed := Relay(index, m, now);
      if passed { CopiesListed(Locked(n, lp), View(), AudienceOf(m), m, LineOf(m)); }
    }
  }

  lemma LockedListed(n: Node, lp: nat)
    requires Listed(n) && lp < |n.links|
    ensures Listed(Locked(n, lp))
  {
  }

  lemma CopiesListed(n: Node, n': Node, a: Audience, m: Msg, line: Msg)
    requires Listed(n) && OneCopyEach(n, n', a, m, line)
    ensures Listed(n')
  {
  }

  // ----- a run of messages -----

  /** A message that comes in on a link. */
  datatype Arrival = Arrival(lp: nat, m: Msg, now: int)

  function DigestOf(a: Arrival): Digest
    requires IsText(a.m)
  {
    Md5.Digest(HostLine(a.m))
  }

  ghost predicate Good(a: Arrival, links: seq<Link>) {
    IsText(a.m) && |HostLine(a.m)| < 0x1_0000_0000 && a.lp < |links| && links[a.lp].host.Some?
  }

  ghost predicate Kept(d: Digest, now: int, history: seq<Accepted>) {
    exists x :: 0 <= x < |history| && history[x].digest == d && history[x].time == now
  }

  /** Two messages with the same line are passed on only at times further apart than
      half an hour. */
  ghost predicate Rare(arrivals: seq<Arrival>, passed: seq<bool>) {
    forall i, j :: 0 <= i < j < |passed| <= |arrivals| && passed[i] && passed[j] ==>
        ApartEnough(arrivals[i], arrivals[j])
  }

  ghost predicate ApartEnough(a: Arrival, b: Arrival) {
    IsText(a.m) && IsText(b.m) && HostLine(a.m) == HostLine(b.m) ==> b.now - a.now > 1800
  }

  ghost predicate SameEnds(before: seq<Link>, links: seq<Link>) {
    |links| == |before| && forall i :: 0 <= i < |links| ==> links[i].host == before[i].host
  }

  /** However often a message comes in, and on whatever links, a host passes it on at
      most once within half an hour; and what it does not pass on was said. */
  method PassOnAll(host: Conversd, index: UniqueIndex, arrivals: seq<Arrival>) returns (passed: seq<bool>)
    requires Listed(host.View()) && index.Valid()
    requires forall i :: 0 <= i < |arrivals| ==> Good(arrivals[i], host.links) && index.last <= arrivals[i].now
    requires forall i, j :: 0 <= i < j < |arrivals| ==> arrivals[i].now <= arrivals[j].now
    modifies host`links, index, index.strings, index.stringstail
    ensures |passed| == |arrivals| && Rare(arrivals, passed)
    ensures forall i :: 0 <= i < |arrivals| && !passed[i] ==> Said(arrivals, passed, i, old(index.history))
  {
    hide OneCopyEach, SeenSince, HostLine, Listed, UniqueIndex.Valid, Md5.Digest;
    passed := [];
    ghost var links, h0 := host.links, index.history;
    for k := 0 to |arrivals|
      invariant |passed| == k && Rare(arrivals, passed) && SameEnds(links, host.links)
      invariant Traced(arrivals, passed, h0, index.history)
      invariant forall i :: 0 <= i < k && !passed[i] ==> Said(arrivals, passed, i, h0)
      invariant Listed(host.View()) && index.Valid() && (k < |arrivals| ==> index.last <= arrivals[k].now)
      invariant forall i :: 0 <= i < k && passed[i] ==> Kept(DigestOf(arrivals[i]), arrivals[i].now, index.history)
    {
      ghost var history, n := index.history, host.View();
      var a := arrivals[k];
      var p := host.TextInput(index, a.lp, a.m, a.now);
      LinksKeepEnds(n, a.lp, host.View(), p, AudienceOf(a.m), a.m, LineOf(a.m));
      OneMorePassed(arrivals, passed, p, history, index.history);
      OneMoreTraced(arrivals, passed, p, h0, history, index.history);
      passed := passed + [p];
    }
  }

  /** Why message j is not passed on: it is empty, or its digest was accepted within half
      an hour before, be it before the run or for a message of the run. */
  ghost predicate Said(arrivals: seq<Arrival>, passed: seq<bool>, j: int, h0: seq<Accepted>)
    requires 0 <= j < |arrivals|
  {
    && IsText(arrivals[j].m)
    && (|| arrivals[j].m.text == ""
        || (exists i :: 0 <= i < j && i < |passed| && passed[i] && SaidAgain(arrivals[i], arrivals[j]))
        || (exists x :: 0 <= x < |h0| && h0[x].digest == DigestOf(arrivals[j]) && arrivals[j].now - h0[x].time <= 1800))
  }

  ghost predicate SaidAgain(a: Arrival, b: Arrival)
    requires IsText(b.m)
  {
    IsText(a.m) && DigestOf(a) == DigestOf(b) && b.now - a.now <= 1800
  }

  /** What was accepted since h0 are messages of the run that were passed on. */
  ghost predicate Traced(arrivals: seq<Arrival>, passed: seq<bool>, h0: seq<Accepted>, history: seq<Accepted>) {
    forall x :: 0 <= x < |history| ==> history[x] in h0 || FromRun(arrivals, passed, history[x])
  }

  ghost predicate FromRun(arrivals: seq<Arrival>, passed: seq<bool>, a: Accepted) {
    exists i :: 0 <= i < |passed| && i < |arrivals| && passed[i] && IsText(arrivals[i].m)
      && a == Accepted(DigestOf(arrivals[i]), arrivals[i].now, a.duration)
  }

  lemma OneMoreTraced(arrivals: seq<Arrival>, passed: seq<bool>, p: bool, h0: seq<Accepted>, history: seq<Accepted>,
      history': seq<Accepted>)
    requires |passed| < |arrivals| && Traced(arrivals, passed, h0, history)
    requires forall i :: 0 <= i < |arrivals| ==> IsText(arrivals[i].m)
    requires forall i :: 0 <= i < |passed| && !passed[i] ==> Said(arrivals, passed, i, h0)
    requires var a := arrivals[|passed|];
             && IsText(a.m)
             && history' == history + (if p then [Accepted(DigestOf(a), a.now, CHECK_UNIQUE_TIME)] else [])
             && (p <==> a.m.text != "" && !SeenSince(history, DigestOf(a), a.now - CHECK_UNIQUE_TIME))
    ensures Traced(arrivals, passed + [p], h0, history')
    ensures forall i :: 0 <= i <= |passed| && !(passed + [p])[i] ==> Said(arrivals, passed + [p], i, h0)
  {
    hide HostLine, Md5.Digest;
    var k, all := |passed|, passed + [p];
    forall x | 0 <= x < |history'| ensures history'[x] in h0 || FromRun(arrivals, all, history'[x]) {
      if x < |history| {
        assert history'[x] == history[x];
        if FromRun(arrivals, passed, history[x]) {
          var i :| 0 <= i < |passed| && i < |arrivals| && passed[i] && IsText(arrivals[i].m)
            && history[x] == Accepted(DigestOf(arrivals[i]), arrivals[i].now, history[x].duration);
          assert all[i];
        }
      } else {
        assert all[k];
      }
    }
    forall i | 0 <= i <= k && !all[i] ensures Said(arrivals, all, i, h0) {
      if i < k {
        SaidStill(arrivals, passed, p, i, h0);
      } else if arrivals[k].m.text != "" {
        SeenBefore(arrivals, passed, p, h0, history);
      }
    }
  }

  lemma SaidStill(arrivals: seq<Arrival>, passed: seq<bool>, p: bool, j: nat, h0: seq<Accepted>)
    requires j < |passed| < |arrivals| && IsText(arrivals[j].m) && Said(arrivals, passed, j, h0)
    ensures Said(arrivals, passed + [p], j, h0)
  {
    hide SaidAgain, Md5.Digest, HostLine;
    if i :| 0 <= i < j && i < |passed| && passed[i] && SaidAgain(arrivals[i], arrivals[j]) {
      assert (passed + [p])[i];
    }
  }

  lemma SeenBefore(arrivals: seq<Arrival>, passed: seq<bool>, p: bool, h0: seq<Accepted>, history: seq<Accepted>)
    requires |passed| < |arrivals| && Traced(arrivals, passed, h0, history) && IsText(arrivals[|passed|].m)
    requires SeenSince(history, DigestOf(arrivals[|passed|]), arrivals[|passed|].now - CHECK_UNIQUE_TIME)
    ensures Said(arrivals, passed + [p], |passed|, h0)
  {
    hide HostLine, Md5.Digest;
    var a := arrivals[|passed|];
    var x :| 0 <= x < |history| && SeenAt(history[x], DigestOf(a), a.now - CHECK_UNIQUE_TIME);
    if history[x] !in h0 {
      var i :| 0 <= i < |passed| && i < |arrivals| && passed[i] && IsText(arrivals[i].m)
        && history[x] == Accepted(DigestOf(arrivals[i]), arrivals[i].now, history[x].duration);
      assert (passed + [p])[i] && SaidAgain(arrivals[i], a);
    }
  }

  lemma LinksKeepEnds(n: Node, lp: nat, n': Node, passed: bool, a: Audience, m: Msg, line: Msg)
    requires lp < |n.links|
    requires if passed then OneCopyEach(Locked(n, lp), n', a, m, line) else n' == Locked(n, lp)
    ensures SameEnds(n.links, n'.links)
  {
    hide LeadsTo;
    if passed {
      forall i | 0 <= i < |n.links| ensures n'.links[i].host == n.links[i].host {
        assert CopyOn(Locked(n, lp).links[i], n'.links[i], LeadsTo(n.users, n.order, i, a), m, line);
      }
    }
  }

  lemma OneMorePassed(arrivals: seq<Arrival>, passed: seq<bool>, p: bool, history: seq<Accepted>,
      history': seq<Accepted>)
    requires |passed| < |arrivals| && Rare(arrivals, passed)
    requires forall i :: 0 <= i < |arrivals| ==> IsText(arrivals[i].m)
    requires forall i :: 0 <= i < |passed| && passed[i] ==> Kept(DigestOf(arrivals[i]), arrivals[i].now, history)
    requires var a := arrivals[|passed|];
               history' == history + if p then [Accepted(DigestOf(a), a.now, CHECK_UNIQUE_TIME)] else []
    requires var a := arrivals[|passed|]; p ==> !SeenSince(history, DigestOf(a), a.now - CHECK_UNIQUE_TIME)
    ensures Rare(arrivals, passed + [p])
    ensures forall i :: 0 <= i <= |passed| && (passed + [p])[i] ==>
              Kept(DigestOf(arrivals[i]), arrivals[i].now, history')
  {
    hide HostLine, Md5.Digest;
    var k, all := |passed|, passed + [p];
    forall i | 0 <= i <= k && all[i] ensures Kept(DigestOf(arrivals[i]), arrivals[i].now, history') {
      if i < k {
        var x :| 0 <= x < |history| && history[x].digest == DigestOf(arrivals[i]) && history[x].time == arrivals[i].now;
        assert history'[x] == history[x];
      } else {
        assert history'[|history|] == Accepted(DigestOf(arrivals[k]), arrivals[k].now, CHECK_UNIQUE_TIME);
      }
    }
    forall i | 0 <= i < k && all[i] && all[k] ensures ApartEnough(arrivals[i], arrivals[k]) {
      var x :| 0 <= x < |history| && history[x].digest == DigestOf(arrivals[i]) && history[x].time == arrivals[i].now;
      assert !SeenAt(history[x], DigestOf(arrivals[k]), arrivals[k].now - CHECK_UNIQUE_TIME);
    }
  }

  lemma RelinkedListed(n: Node, links: seq<Link>)
    requires Listed(n)
    ensures Listed(n.(links := links))
  {
  }

  lemma MovedListed(n: Node, former: nat, lp: nat)
    requires Listed(n)
    ensures Listed(n.(users := Moved(n.users, former, lp)))
  {
  }

  lemma SignedOffListed(n: Node, k: Key, best: map<Name, nat>, now: int)
    requires Listed(n)
    ensures Listed(SignedOffOne(n, k, best, now))
  {
  }

  lemma {:induction false} DroppedListed(n: Node, lp: nat, keys: seq<Key>, best: map<Name, nat>, now: int)
    requires Listed(n)
    ensures Listed(Dropped(n, lp, keys, best, now))
    decreases keys
  {
    hide Listed, SignedOffOne;
    if keys != [] {
      SignedOffListed(n, keys[0], best, now);
      DroppedListed(if Leaves(n, lp, keys[0]) then SignedOffOne(n, keys[0], best, now) else n, lp,
                     keys[1..], best, now);
    }
  }

  lemma CloseListed(n: Node, lp: nat, best: map<Name, nat>, now: int)
    requires Listed(n) && lp < |n.links|
    ensures Listed(ConversNode.CloseLink(n, lp, best, now))
  {
    DroppedListed(Shut(n, lp), lp, n.order, best, now);
  }

  lemma SentAllSplits(l: Link, m: Msg, ms: seq<Msg>)
    ensures SentAll(SentTo(l, m), ms) == SentAll(l, [m] + ms)
  {
    assert l.sndq + [m] + ms == l.sndq + ([m] + ms);
  }
}
