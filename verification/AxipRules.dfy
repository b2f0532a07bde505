/** The rules of the table of axip partners (src/axip.c), entry by entry: what goes,
    what is taken, and what an entry says afterwards. */
module AxipRules {
  import opened Ax25Address
  import opened Options
  import opened AxipPolicy

  // ----- what goes -----

  lemma {:induction false} SweptHas(rs: seq<Route>, s: Sweep, r: Route)
    ensures r in Swept(rs, s) <==> exists q :: q in rs && !Drops(q, s) && r == Stays(q, s)
  {
    hide Drops, Stays;
    if rs != [] {
      SweptHas(rs[1..], s, r);
      assert forall q :: q in rs <==> q == rs[0] || q in rs[1..];
      assert !Drops(rs[0], s) ==> forall q :: q in Swept(rs, s) <==> q == Stays(rs[0], s) || q in Swept(rs[1..], s);
    }
  }

  /** What is left keeps its order. */
  lemma {:induction false} SweptInOrder(rs: seq<Route>, more: seq<Route>, s: Sweep)
    ensures Swept(rs + more, s) == Swept(rs, s) + Swept(more, s)
    decreases rs
  {
    hide Drops, Stays;
    if rs == [] {
      assert rs + more == more;
    } else {
      assert (rs + more)[1..] == rs[1..] + more;
      SweptInOrder(rs[1..], more, s);
    }
  }

  /** What nobody wrote down and nobody named, and what is no default. */
  ghost predicate Observed(r: Route) {
    !r.written && !r.perm && !r.named && !r.isDefault
  }

  /** A tick takes exactly the entries that were only observed, hang on no session, are
      not behind an open port of their own, were heard once and have been silent for
      longer than their port allows, or where it says nothing, the table. The others stay
      as they are. */
  lemma TickTakes(rs: seq<Route>, now: int, minutes: int, ports: map<int, int>, r: Route)
    ensures var allowed := if r.rdev in ports && ports[r.rdev] != 0 then ports[r.rdev] else minutes;
            r in Swept(rs, Tick(now, minutes, ports)) <==>
              && r in rs
              && !(Observed(r) && !r.once && r.tsock == 0 && !r.udpDirect
                   && r.htime != 0 && allowed != 0 && now - r.htime > 60 * allowed)
  {
    SweptHas(rs, Tick(now, minutes, ports), r);
  }

  /** The end of a session takes exactly what was observed on it; what was written down
      stays without the session, and the other entries stay as they are. */
  lemma SessionEndTakes(rs: seq<Route>, tsock: int, r: Route)
    ensures r in Swept(rs, EndOfSession(tsock)) <==>
              || (r in rs && r.tsock != tsock)
              || exists q :: q in rs && q.tsock == tsock && !Observed(q) && r == q.(tsock := 0, tchan := 0, tproto := 0)
  {
    SweptHas(rs, EndOfSession(tsock), r);
  }

  /** The end of a port takes exactly what leads over it without a session and is not put
      down for good, even if it was written by hand. */
  lemma PortEndTakes(rs: seq<Route>, rdev: int, r: Route)
    ensures r in Swept(rs, EndOfPort(rdev)) <==>
              && r in rs
              && (rdev == 0 || r.rdev != rdev || r.tsock != 0 || r.perm || r.once || r.named || r.isDefault)
  {
    SweptHas(rs, EndOfPort(rdev), r);
  }

  // ----- what is entered -----

  /** Whether an address for the call is accepted: from the sysop always; from the
      resolver for a new call, for the same address, or for an entry with a name; from
      traffic for the same address, or if the port learns and the entry is not put down
      for good. */
  lemma AddressTakenIff(rs: seq<Route>, call: Address, dest: Peer, keepport: bool, from: Source, ifp: Option<Iface>)
    requires dest.Peer?
    ensures var o, i := RouteAdd(rs, call, dest, keepport, from, ifp), Find(rs, call);
            var learns := ifp == None || ifp.value.learn != Off;
            var same := i < |rs| && rs[i].dest.Peer? && rs[i].dest.ip == dest.ip;
            && (o.ok <==> match from
                          case Sysop => true
                          case Resolve => i == |rs| || same || rs[i].named
                          case Learned => same || (learns && (i == |rs| || (!rs[i].perm && !rs[i].once))))
            && o.refused == !o.ok && (!o.ok ==> o.routes == rs)
  {
  }

  /** The entry after an address was accepted. One that moves forgets the port it was
      heard from; one that was only observed follows the port it is heard on. */
  ghost predicate Moved(r: Route, r': Route, moved: bool, dest: Peer, keepport: bool, from: Source, ifp: Option<Iface>)
    requires dest.Peer?
  {
    && r'.dest == Peer(dest.ip, if keepport then dest.port else 0)
    && r'.written == (r.written || (moved && from.Sysop?))
    && (if moved then r'.lport == 0 && r'.ledv == 0 && r'.ltime == 0 && !r'.udpDirect
        else r'.lport == r.lport && r'.ledv == r.ledv && r'.ltime == r.ltime && r'.udpDirect == r.udpDirect)
    && r'.rdev == (if from.Learned? && ifp.Some? && !r.written then ifp.value.rdev else r.rdev)
    && r'.call == r.call && r'.isDefault == r.isDefault && r'.perm == r.perm && r'.once == r.once && r'.named == r.named
    && r'.tsock == r.tsock && r'.tchan == r.tchan && r'.tproto == r.tproto && r'.htime == r.htime
  }

  lemma EntryAfterAdd(rs: seq<Route>, call: Address, dest: Peer, keepport: bool, from: Source, ifp: Option<Iface>)
    requires dest.Peer? && RouteAdd(rs, call, dest, keepport, from, ifp).ok && Find(rs, call) < |rs|
    ensures var rs', i := RouteAdd(rs, call, dest, keepport, from, ifp).routes, Find(rs, call);
            && rs' == rs[i := rs'[i]]
            && Moved(rs[i], rs'[i], !(rs[i].dest.Peer? && rs[i].dest.ip == dest.ip), dest, keepport, from, ifp)
  {
    hide AddrEq, Find, Entered, Moved;
    var r := rs[Find(rs, call)];
    EntryMoves(r, dest, keepport, from, ifp);
  }

  lemma EntryMoves(r: Route, dest: Peer, keepport: bool, from: Source, ifp: Option<Iface>)
    requires dest.Peer?
    ensures Moved(r, Entered(r, dest, keepport, from, ifp), false, dest, keepport, from, ifp)
    ensures var r1 := r.(written := r.written || from.Sysop?, lport := 0, ledv := 0, ltime := 0, udpDirect := false);
            Moved(r, Entered(r1, dest, keepport, from, ifp), true, dest, keepport, from, ifp)
  {
  }

  /** A call that is new comes first. It is put down by whoever writes it, and traffic on
      a port that learns once puts it down once. */
  lemma NewEntryAfterAdd(rs: seq<Route>, call: Address, dest: Peer, keepport: bool, from: Source, ifp: Option<Iface>)
    requires dest.Peer? && RouteAdd(rs, call, dest, keepport, from, ifp).ok && Find(rs, call) == |rs|
    ensures var rs' := RouteAdd(rs, call, dest, keepport, from, ifp).routes;
            && |rs'| == |rs| + 1 && rs'[1..] == rs
            && rs'[0] == Route(AddrCopy(call), Peer(dest.ip, if keepport then dest.port else 0), false, false,
                               from.Learned? && ifp.Some? && ifp.value.learn.Once?, !from.Learned?, false, 0, 0, 0,
                               if from.Learned? && ifp.Some? then ifp.value.rdev else 0, 0, 0, 0, 0, false)
  {
    hide AddrCopy;
  }

  // ----- a frame -----

  /** After a frame was taken every entry at its address is heard now, if the entry is
      bound to no other port, and no other entry changes but the one of the call. */
  lemma HeardAfterFrame(rs: seq<Route>, f: Frame, j: nat)
    requires f.dest.Peer? && Received(rs, f).ok && Find(rs, f.call) < |rs| && j < |rs| && j != Find(rs, f.call)
    ensures var rs' := Received(rs, f).routes;
            |rs'| == |rs| && rs'[j] == rs[j].(htime :=
              if rs[j].dest.Peer? && rs[j].dest.ip == f.dest.ip && (rs[j].rdev == 0 || rs[j].rdev == f.ifp.rdev)
              then f.now else rs[j].htime)
  {
    hide AddrEq, AddrCopy, Entered, Find;
    var o := RouteAdd(rs, f.call, f.dest, false, Learned, Some(f.ifp));
    EntryAfterAdd(rs, f.call, f.dest, false, Learned, Some(f.ifp));
    SameFind(rs, o.routes, f.call);
  }

  /** The entry of the call after a frame over UDP: the port it came from is kept if it
      can be trusted, and whether it is the one we listen on ourselves. */
  lemma CallAfterFrame(rs: seq<Route>, f: Frame)
    requires f.dest.Peer? && f.udp && Received(rs, f).ok && Find(rs, f.call) < |rs|
    ensures var rs', i := Received(rs, f).routes, Find(rs, f.call);
            && |rs'| == |rs|
            && var r, r' := rs[i], rs'[i];
            && r'.dest == Peer(f.dest.ip, 0) && r'.udpDirect == (f.dest.port == f.edvPort)
            && (f.trust ==> r'.lport == f.dest.port && r'.ledv == f.edv && r'.ltime == f.now)
            && (!f.trust && r.dest.Peer? && r.dest.ip == f.dest.ip ==>
                  r'.lport == r.lport && r'.ledv == r.ledv && r'.ltime == r.ltime)
            && (!f.trust && !(r.dest.Peer? && r.dest.ip == f.dest.ip) ==> r'.lport == 0)
            && r'.rdev == (if r.written then r.rdev else f.ifp.rdev)
            && r'.htime == (if r'.rdev == 0 || r'.rdev == f.ifp.rdev then f.now else r.htime)
  {
    hide AddrEq, AddrCopy, Find, RouteAdd, LearnPort, Heard;
    var o, i := RouteAdd(rs, f.call, f.dest, false, Learned, Some(f.ifp)), Find(rs, f.call);
    EntryAfterAdd(rs, f.call, f.dest, false, Learned, Some(f.ifp));
    SameFind(rs, o.routes, f.call);
    PortAndTime(o.routes, f, i);
  }

  lemma PortAndTime(rs: seq<Route>, f: Frame, i: nat)
    requires f.dest.Peer? && i == Find(rs, f.call) < |rs| && SameIp(rs[i], f.dest)
    ensures var rs1 := LearnPort(rs, f.call, f.dest.port, f.edv, f.edvPort, f.trust, f.now);
            var rs' := Heard(rs1, f.dest, f.ifp.rdev, f.now); var r := rs[i];
            && |rs'| == |rs|
            && rs'[i] == r.(udpDirect := f.dest.port == f.edvPort, lport := if f.trust then f.dest.port else r.lport,
                            ledv := if f.trust then f.edv else r.ledv, ltime := if f.trust then f.now else r.ltime,
                            htime := if r.rdev == 0 || r.rdev == f.ifp.rdev then f.now else r.htime)
  {
    hide AddrEq, Find;
  }

  lemma {:induction false} SameFind(rs: seq<Route>, rs': seq<Route>, call: Address)
    requires |rs'| == |rs| && forall j :: 0 <= j < |rs| ==> rs'[j].call == rs[j].call
    ensures Find(rs', call) == Find(rs, call)
    decreases |rs|
  {
    hide AddrEq;
    if rs != [] { SameFind(rs[1..], rs'[1..], call); }
  }

  // ----- a session -----

  /** Whether a call is taken from a session: where it has the call already; where the
      entry is put down, unless it is bound to another port; and otherwise where the port
      learns. */
  lemma SessionTakenIff(rs: seq<Route>, call: Address, tsock: int, chan: int, proto: int, ifp: Option<Iface>, now: int)
    ensures var o, i := LearnTransport(rs, call, tsock, chan, proto, ifp, now), Find(rs, AddrCopy(call));
            var learns := ifp == None || ifp.value.learn != Off;
            var dev := if ifp == None then 0 else ifp.value.rdev;
            && (o.ok <==>
                  || (exists k :: 0 <= k < |rs| && rs[k].tsock == tsock && AddrEq(rs[k].call, AddrCopy(call)))
                  || (if i < |rs| && (rs[i].written || rs[i].perm || rs[i].once)
                      then rs[i].rdev == 0 || dev == 0 || rs[i].rdev == dev
                      else learns))
            && o.refused == !o.ok && (!o.ok ==> o.routes == rs)
  {
    hide AddrEq, AddrCopy, Attached;
    FindOnFinds(rs, AddrCopy(call), tsock);
  }

  lemma {:induction false} FindOnFinds(rs: seq<Route>, call: Address, tsock: int)
    ensures FindOn(rs, call, tsock) < |rs| <==>
              exists k :: 0 <= k < |rs| && rs[k].tsock == tsock && AddrEq(rs[k].call, call)
    decreases rs
  {
    hide AddrEq;
    if rs != [] && !(rs[0].tsock == tsock && AddrEq(rs[0].call, call)) {
      FindOnFinds(rs[1..], call, tsock);
      if k :| 0 <= k < |rs[1..]| && rs[1..][k].tsock == tsock && AddrEq(rs[1..][k].call, call) {
        assert rs[k + 1] == rs[1..][k];
      }
      if k :| 0 <= k < |rs| && rs[k].tsock == tsock && AddrEq(rs[k].call, call) {
        assert rs[1..][k - 1] == rs[k];
      }
    }
  }

  /** The entry that hangs on the session now: what was only observed loses its address
      and follows the port; what is put down keeps both, if it has a port. */
  ghost predicate Hangs(r: Route, r': Route, tsock: int, chan: int, proto: int, ifp: Option<Iface>, now: int) {
    var decided := r.written || r.perm || r.once;
    var dev := if ifp == None then 0 else ifp.value.rdev;
    && r'.tsock == tsock && r'.tchan == chan && r'.tproto == proto && r'.htime == now
    && r'.dest == (if decided then r.dest else NoPeer)
    && r'.rdev == (if dev == 0 || (decided && r.rdev != 0) then r.rdev else dev)
    && r' == r.(tsock := r'.tsock, tchan := r'.tchan, tproto := r'.tproto, htime := r'.htime, dest := r'.dest,
                rdev := r'.rdev)
  }

  lemma AttachedHangs(r: Route, tsock: int, chan: int, proto: int, ifp: Option<Iface>, now: int)
    ensures Hangs(r, Attached(r, tsock, chan, proto, ifp, now), tsock, chan, proto, ifp, now)
  {
  }

  lemma EntryOnSession(rs: seq<Route>, call: Address, tsock: int, chan: int, proto: int, ifp: Option<Iface>, now: int)
    requires LearnTransport(rs, call, tsock, chan, proto, ifp, now).ok
    ensures var rs', k, i := LearnTransport(rs, call, tsock, chan, proto, ifp, now).routes,
                             FindOn(rs, AddrCopy(call), tsock), Find(rs, AddrCopy(call));
            if k < |rs| then rs' == rs[k := rs[k].(tchan := chan, tproto := proto, htime := now)]
            else if i < |rs| then
              |rs'| == |rs| && rs' == rs[i := rs'[i]] && Hangs(rs[i], rs'[i], tsock, chan, proto, ifp, now)
            else
              && |rs'| == |rs| + 1 && rs'[1..] == rs && rs'[0].call == AddrCopy(call) && rs'[0].dest == NoPeer
              && Observed(rs'[0]) && rs'[0].once == (ifp.Some? && ifp.value.learn.Once?)
              && rs'[0].tsock == tsock && rs'[0].tchan == chan && rs'[0].tproto == proto && rs'[0].htime == now
              && rs'[0].rdev == if ifp == None then 0 else ifp.value.rdev
  {
    hide AddrEq, Find, FindOn, Attached, Hangs, AddrCopy;
    CopyIsEqual(call);
    var i := Find(rs, AddrCopy(call));
    if i < |rs| { AttachedHangs(rs[i], tsock, chan, proto, ifp, now); }
    var r := Blank(AddrCopy(call)).(once := ifp.Some? && ifp.value.learn.Once?);
    AttachedHangs(r, tsock, chan, proto, ifp, now);
    assert Hangs(r, Attached(r, tsock, chan, proto, ifp, now), tsock, chan, proto, ifp, now);
    NewOnSession(r, Attached(r, tsock, chan, proto, ifp, now), tsock, chan, proto, ifp, now);
  }

  lemma NewOnSession(r: Route, r': Route, tsock: int, chan: int, proto: int, ifp: Option<Iface>, now: int)
    requires Hangs(r, r', tsock, chan, proto, ifp, now) && r.dest == NoPeer && Observed(r) && r.rdev == 0
    ensures r'.call == r.call && r'.dest == NoPeer && Observed(r') && r'.once == r.once
    ensures r'.tsock == tsock && r'.tchan == chan && r'.tproto == proto && r'.htime == now
    ensures r'.rdev == if ifp == None then 0 else ifp.value.rdev
  {
  }
}
