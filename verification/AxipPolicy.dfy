/** The table of axip partners (src/axip.c): who may enter a callsign, who may
    change its address, and who may take it away. */
module AxipPolicy {
  import opened Ax25Address
  import opened Options

  /** The outer address; the stored port is 0 where the interface's is meant. */
  datatype Peer = NoPeer | Peer(ip: int, port: int)

  datatype Learning = Off | Once | On

  /** An interface; expiry is in seconds, 0 for never. */
  datatype Iface = Iface(rdev: int, learn: Learning)

  datatype Source = Sysop | Resolve | Learned

  /** struct axip_route; tsock is 0 where there is no session. */
  datatype Route = Route(call: Address, dest: Peer, isDefault: bool, perm: bool, once: bool, written: bool, named: bool,
                         tsock: int, tchan: int, tproto: int, rdev: int, htime: int,
                         lport: int, ledv: int, ltime: int, udpDirect: bool)

  function Blank(call: Address): Route {
    Route(AddrCopy(call), NoPeer, false, false, false, false, false, 0, 0, 0, 0, 0, 0, 0, 0, false)
  }

  predicate MayLearn(ifp: Option<Iface>) {
    ifp.None? || !ifp.value.learn.Off?
  }

  function Rdev(ifp: Option<Iface>): int {
    if ifp.None? then 0 else ifp.value.rdev
  }

  /** Put down as a decision, not as something observed. */
  predicate Decided(r: Route) {
    r.written || r.perm || r.once
  }

  function Find(rs: seq<Route>, call: Address): (i: nat)
    ensures i <= |rs| && forall j :: 0 <= j < i ==> !AddrEq(rs[j].call, call)
    ensures i < |rs| ==> AddrEq(rs[i].call, call)
  {
    if rs == [] || AddrEq(rs[0].call, call) then 0 else 1 + Find(rs[1..], call)
  }

  datatype Outcome = Outcome(routes: seq<Route>, ok: bool, refused: bool)

  /** The address and the port that are entered, and the interface a learned route
      follows. */
  function Entered(r: Route, dest: Peer, keepport: bool, from: Source, ifp: Option<Iface>): Route
    requires dest.Peer?
  {
    var r1 := r.(dest := Peer(dest.ip, if keepport then dest.port else 0));
    if from.Learned? && ifp.Some? && !r.written then r1.(rdev := Rdev(ifp)) else r1
  }

  predicate SameIp(r: Route, dest: Peer) {
    r.dest.Peer? && dest.Peer? && r.dest.ip == dest.ip
  }

  /** Whether an entry with another address is left as it is. */
  predicate Refuses(r: Route, from: Source, ifp: Option<Iface>) {
    || (from.Resolve? && !r.named)
    || (from.Learned? && (r.perm || r.once || !MayLearn(ifp)))
  }

  /** axip_route_add */
  function RouteAdd(rs: seq<Route>, call: Address, dest: Peer, keepport: bool, from: Source,
      ifp: Option<Iface>): Outcome {
    if dest.NoPeer? then Outcome(rs, false, false)
    else
      var i := Find(rs, call);
      if i == |rs| then
        if from.Learned? && !MayLearn(ifp) then Outcome(rs, false, true)
        else
          var r := Blank(call).(once := from.Learned? && ifp.Some? && ifp.value.learn.Once?, written := !from.Learned?);
          Outcome([Entered(r, dest, keepport, from, ifp)] + rs, true, false)
      else if SameIp(rs[i], dest) then Outcome(rs[i := Entered(rs[i], dest, keepport, from, ifp)], true, false)
      else if Refuses(rs[i], from, ifp) then Outcome(rs, false, true)
      else
        var r := rs[i].(written := rs[i].written || from.Sysop?, lport := 0, ledv := 0, ltime := 0, udpDirect := false);
        Outcome(rs[i := Entered(r, dest, keepport, from, ifp)], true, false)
  }

  /** axip_learn_port */
  function LearnPort(rs: seq<Route>, call: Address, port: int, edv: int, edvPort: int, trust: bool,
      now: int): seq<Route> {
    var i := Find(rs, call);
    if i == |rs| then rs
    else
      var r := if trust then rs[i].(lport := port, ledv := edv, ltime := now) else rs[i];
      rs[i := r.(udpDirect := port == edvPort)]
  }

  /** Whether a session on another port than the entry's may not have it. */
  predicate Foreign(r: Route, ifp: Option<Iface>) {
    if Decided(r) then r.rdev != 0 && Rdev(ifp) != 0 && r.rdev != Rdev(ifp) else !MayLearn(ifp)
  }

  /** The entry once it hangs on the session. */
  function Attached(r: Route, tsock: int, chan: int, proto: int, ifp: Option<Iface>, now: int): Route {
    var r1 := (if Decided(r) then r else r.(dest := NoPeer))
              .(tsock := tsock, tchan := chan, tproto := proto, htime := now);
    if Decided(r) then (if r.rdev == 0 then r1.(rdev := Rdev(ifp)) else r1)
    else if Rdev(ifp) != 0 then r1.(rdev := Rdev(ifp)) else r1
  }

  function FindOn(rs: seq<Route>, call: Address, tsock: int): (i: nat)
    ensures i <= |rs| && (i < |rs| ==> rs[i].tsock == tsock && AddrEq(rs[i].call, call))
  {
    if rs == [] || (rs[0].tsock == tsock && AddrEq(rs[0].call, call)) then 0 else 1 + FindOn(rs[1..], call, tsock)
  }

  /** axip_learn_transport */
  function LearnTransport(rs: seq<Route>, call: Address, tsock: int, chan: int, proto: int, ifp: Option<Iface>,
      now: int): Outcome {
    var k := FindOn(rs, AddrCopy(call), tsock);
    if k < |rs| then Outcome(rs[k := rs[k].(tchan := chan, tproto := proto, htime := now)], true, false)
    else
      var i := Find(rs, AddrCopy(call));
      if i < |rs| then
        if Foreign(rs[i], ifp) then Outcome(rs, false, true)
        else Outcome(rs[i := Attached(rs[i], tsock, chan, proto, ifp, now)], true, false)
      else if !MayLearn(ifp) then Outcome(rs, false, true)
      else
        var r := Blank(AddrCopy(call)).(once := ifp.Some? && ifp.value.learn.Once?);
        Outcome([Attached(r, tsock, chan, proto, ifp, now)] + rs, true, false)
  }

  // ----- what makes an entry go -----

  /** A sweep over the list: an entry is dropped, or kept in the form given. */
  datatype Sweep = EndOfSession(tsock: int) | EndOfPort(rdev: int) | Tick(now: int, expiry: int, ports: map<int, int>)

  /** The silence after which a learned entry of a port is forgotten; 0 is never. */
  function Interval(r: Route, s: Sweep): int
    requires s.Tick?
  {
    if r.rdev in s.ports && s.ports[r.rdev] != 0 then s.ports[r.rdev] * 60 else s.expiry * 60
  }

  predicate Drops(r: Route, s: Sweep) {
    match s
    case EndOfSession(tsock) => r.tsock == tsock && !(r.written || r.perm || r.named || r.isDefault)
    case EndOfPort(rdev) => r.tsock == 0 && r.rdev == rdev && rdev != 0 && !(r.perm || r.once || r.named || r.isDefault)
    case Tick(now, _, _) =>
      && !Decided(r) && !r.named && !r.isDefault && r.tsock == 0 && !r.udpDirect
      && Interval(r, s) != 0 && r.htime != 0 && r.htime + Interval(r, s) < now
  }

  function Stays(r: Route, s: Sweep): Route {
    if s.EndOfSession? && r.tsock == s.tsock then r.(tsock := 0, tchan := 0, tproto := 0) else r
  }

  /** axip_forget_transport, axip_forget_iface and axip_expiry_tick */
  function Swept(rs: seq<Route>, s: Sweep): seq<Route> {
    if rs == [] then []
    else if Drops(rs[0], s) then Swept(rs[1..], s)
    else [Stays(rs[0], s)] + Swept(rs[1..], s)
  }

  // ----- a received frame -----

  /** Everything known to be at the address on this interface was heard just now. */
  function Heard(rs: seq<Route>, dest: Peer, rdev: int, now: int): seq<Route> {
    seq(|rs|, i requires 0 <= i < |rs| =>
      if SameIp(rs[i], dest) && (rs[i].rdev == 0 || rs[i].rdev == rdev) then rs[i].(htime := now) else rs[i])
  }

  datatype Frame = Frame(call: Address, dest: Peer, ifp: Iface,
      udp: bool, edv: int, edvPort: int, trust: bool, now: int)

  /** What axip_recv makes of the table; the frame is dropped where it is not ok. */
  function Received(rs: seq<Route>, f: Frame): Outcome {
    var o := RouteAdd(rs, f.call, f.dest, false, Learned, Some(f.ifp));
    if !o.ok then o
    else
      var port := if f.dest.Peer? then f.dest.port else 0;
      var rs1 := if f.udp then LearnPort(o.routes, f.call, port, f.edv, f.edvPort, f.trust, f.now) else o.routes;
      o.(routes := Heard(rs1, f.dest, f.ifp.rdev, f.now))
  }

  // ----- invariants -----

  ghost predicate OnePerCall(rs: seq<Route>) {
    forall i, j :: 0 <= i < j < |rs| ==> !AddrEq(rs[i].call, rs[j].call)
  }

  /** A permanent entry that the sysop gave an address and no name. */
  predicate Fixed(r: Route) {
    r.perm && !r.named
  }

  ghost predicate Present(rs: seq<Route>, call: Address, dest: Peer) {
    exists i :: 0 <= i < |rs| && Holds(rs[i], call, dest)
  }

  predicate Ip(a: Peer, b: Peer) {
    a == b || (a.Peer? && b.Peer? && a.ip == b.ip)
  }

  predicate Holds(r: Route, call: Address, dest: Peer) {
    AddrEq(r.call, call) && Fixed(r) && Ip(r.dest, dest)
  }

  /** What traffic must not do: a fixed entry is still there with its address, and a
      `once` entry without a name has its address as long as it is there. */
  ghost predicate Respects(rs: seq<Route>, rs': seq<Route>) {
    && (forall i :: 0 <= i < |rs| && Fixed(rs[i]) ==> Present(rs', rs[i].call, rs[i].dest))
    && (forall i, j :: 0 <= i < |rs| && 0 <= j < |rs'| ==> OnceKept(rs[i], rs'[j]))
  }

  predicate OnceKept(r: Route, r': Route) {
    r.once && !r.named && AddrEq(r'.call, r.call) ==> r'.once && !r'.named && Ip(r'.dest, r.dest)
  }

  /** The list with one entry replaced by another for the same call. */
  lemma ReplacedKeeps(rs: seq<Route>, i: nat, r: Route)
    requires OnePerCall(rs) && i < |rs| && r.call == rs[i].call
    requires r.perm == rs[i].perm && r.named == rs[i].named && r.once == rs[i].once
    requires Fixed(rs[i]) || (rs[i].once && !rs[i].named) ==> Ip(r.dest, rs[i].dest)
    ensures OnePerCall(rs[i := r]) && Respects(rs, rs[i := r])
  {
    hide AddrEq;
    var rs' := rs[i := r];
    forall j | 0 <= j < |rs| && Fixed(rs[j]) ensures Present(rs', rs[j].call, rs[j].dest) {
      Reflexive(rs[j].call);
      assert Holds(rs'[j], rs[j].call, rs[j].dest);
    }
    forall j, k | 0 <= j < |rs| && 0 <= k < |rs'| ensures OnceKept(rs[j], rs'[k]) {
      if AddrEq(rs'[k].call, rs[j].call) { SameIndex(rs, k, j); }
    }
  }

  lemma Reflexive(a: Address)
    ensures AddrEq(a, a)
  {
  }

  lemma SameIndex(rs: seq<Route>, i: nat, j: nat)
    requires OnePerCall(rs) && i < |rs| && j < |rs| && AddrEq(rs[i].call, rs[j].call)
    ensures i == j
  {
    hide AddrEq;
    AddrEqSymmetric(rs[i].call, rs[j].call);
  }

  /** The list with an entry for a call that had none. */
  lemma AddedKeeps(rs: seq<Route>, r: Route)
    requires OnePerCall(rs) && forall j :: 0 <= j < |rs| ==> !AddrEq(rs[j].call, r.call)
    ensures OnePerCall([r] + rs) && Respects(rs, [r] + rs)
  {
    hide AddrEq;
    var rs' := [r] + rs;
    forall j | 0 <= j < |rs| ensures !AddrEq(r.call, rs[j].call) && rs'[j + 1] == rs[j] {
      Asymmetric(r.call, rs[j].call);
    }
    forall j | 0 <= j < |rs| && Fixed(rs[j]) ensures Present(rs', rs[j].call, rs[j].dest) {
      Reflexive(rs[j].call);
      assert Holds(rs'[j + 1], rs[j].call, rs[j].dest);
    }
    forall j, k | 0 <= j < |rs| && 0 <= k < |rs'| ensures OnceKept(rs[j], rs'[k]) {
      if k > 0 && AddrEq(rs'[k].call, rs[j].call) { SameIndex(rs, k - 1, j); }
    }
  }

  lemma Asymmetric(a: Address, b: Address)
    requires !AddrEq(b, a)
    ensures !AddrEq(a, b)
  {
  }

  lemma NothingChanges(rs: seq<Route>)
    requires OnePerCall(rs)
    ensures Respects(rs, rs)
  {
    hide AddrEq;
    forall j | 0 <= j < |rs| && Fixed(rs[j]) ensures Present(rs, rs[j].call, rs[j].dest) {
      Reflexive(rs[j].call);
      assert Holds(rs[j], rs[j].call, rs[j].dest);
    }
    forall j, k | 0 <= j < |rs| && 0 <= k < |rs| ensures OnceKept(rs[j], rs[k]) {
      if AddrEq(rs[k].call, rs[j].call) { SameIndex(rs, k, j); }
    }
  }

  /** No entry matches the copy of a call if none matches the call. */
  lemma CopyMatchesNone(rs: seq<Route>, call: Address)
    requires Find(rs, call) == |rs|
    ensures forall j :: 0 <= j < |rs| ==> !AddrEq(rs[j].call, AddrCopy(call))
  {
    hide AddrEq, AddrCopy;
    forall j | 0 <= j < |rs| ensures !AddrEq(rs[j].call, AddrCopy(call)) {
      CopyDiffersToo(rs[j].call, call);
    }
  }

  /** Traffic and name lookups keep one entry for a call, and respect what is decided. */
  lemma RouteAddKeeps(rs: seq<Route>, call: Address, dest: Peer, keepport: bool, from: Source, ifp: Option<Iface>)
    requires OnePerCall(rs)
    ensures var o := RouteAdd(rs, call, dest, keepport, from, ifp);
            OnePerCall(o.routes) && (!from.Sysop? ==> Respects(rs, o.routes))
  {
    hide AddrEq, AddrCopy, Respects, OnePerCall, Find;
    NothingChanges(rs);
    var i := Find(rs, call);
    if dest.Peer? {
      if i == |rs| {
        CopyMatchesNone(rs, call);
        var once := from.Learned? && ifp.Some? && ifp.value.learn.Once?;
        AddedKeeps(rs, Entered(Blank(call).(once := once, written := !from.Learned?), dest, keepport, from, ifp));
      } else if SameIp(rs[i], dest) {
        ReplacedKeeps(rs, i, Entered(rs[i], dest, keepport, from, ifp));
      } else if !Refuses(rs[i], from, ifp) {
        var r := rs[i].(written := rs[i].written || from.Sysop?, lport := 0, ledv := 0, ltime := 0, udpDirect := false);
        if from.Sysop? { StillOnePerCall(rs, i, Entered(r, dest, keepport, from, ifp)); }
        else { ReplacedKeeps(rs, i, Entered(r, dest, keepport, from, ifp)); }
      }
    }
  }

  lemma StillOnePerCall(rs: seq<Route>, i: nat, r: Route)
    requires OnePerCall(rs) && i < |rs| && r.call == rs[i].call
    ensures OnePerCall(rs[i := r])
  {
    hide AddrEq;
  }

  lemma LearnPortKeeps(rs: seq<Route>, call: Address, port: int, edv: int, edvPort: int, trust: bool, now: int)
    requires OnePerCall(rs)
    ensures OnePerCall(LearnPort(rs, call, port, edv, edvPort, trust, now))
    ensures Respects(rs, LearnPort(rs, call, port, edv, edvPort, trust, now))
  {
    hide AddrEq, Respects, OnePerCall, Find;
    NothingChanges(rs);
    var i := Find(rs, call);
    if i < |rs| {
      var r := if trust then rs[i].(lport := port, ledv := edv, ltime := now) else rs[i];
      ReplacedKeeps(rs, i, r.(udpDirect := port == edvPort));
    }
  }

  lemma LearnTransportKeeps(rs: seq<Route>, call: Address, tsock: int, chan: int, proto: int,
      ifp: Option<Iface>, now: int)
    requires OnePerCall(rs)
    ensures var o := LearnTransport(rs, call, tsock, chan, proto, ifp, now);
            OnePerCall(o.routes) && Respects(rs, o.routes)
  {
    hide AddrEq, AddrCopy, Respects, OnePerCall, Find, FindOn;
    NothingChanges(rs);
    var k := FindOn(rs, AddrCopy(call), tsock);
    if k < |rs| {
      ReplacedKeeps(rs, k, rs[k].(tchan := chan, tproto := proto, htime := now));
    } else {
      var i := Find(rs, AddrCopy(call));
      if i < |rs| {
        if !Foreign(rs[i], ifp) { ReplacedKeeps(rs, i, Attached(rs[i], tsock, chan, proto, ifp, now)); }
      } else if MayLearn(ifp) {
        CopyMatchesNone(rs, AddrCopy(call));
        var r := Blank(AddrCopy(call)).(once := ifp.Some? && ifp.value.learn.Once?);
        AddedKeeps(rs, Attached(r, tsock, chan, proto, ifp, now));
      }
    }
  }

  /** What is left after a sweep was there before. */
  lemma {:induction false} SweptFrom(rs: seq<Route>, s: Sweep, j: nat) returns (i: nat)
    requires j < |Swept(rs, s)|
    ensures i < |rs| && Swept(rs, s)[j] == Stays(rs[i], s) && !Drops(rs[i], s)
    ensures i >= j
    decreases |rs|
  {
    hide Drops, Stays;
    if Drops(rs[0], s) {
      i := SweptFrom(rs[1..], s, j);
      i := i + 1;
    } else if j == 0 {
      i := 0;
    } else {
      i := SweptFrom(rs[1..], s, j - 1);
      i := i + 1;
    }
  }

  lemma {:induction false} SweptKeeps(rs: seq<Route>, s: Sweep, i: nat) returns (j: nat)
    requires i < |rs| && !Drops(rs[i], s)
    ensures j < |Swept(rs, s)| && Swept(rs, s)[j] == Stays(rs[i], s)
    decreases |rs|
  {
    hide Drops, Stays;
    if i == 0 {
      j := 0;
    } else {
      j := SweptKeeps(rs[1..], s, i - 1);
      if !Drops(rs[0], s) { j := j + 1; }
    }
  }

  lemma {:induction false} SweptOnePerCall(rs: seq<Route>, s: Sweep)
    requires OnePerCall(rs)
    ensures OnePerCall(Swept(rs, s))
    decreases |rs|
  {
    hide AddrEq, Drops;
    if rs != [] {
      var rest := Swept(rs[1..], s);
      SweptOnePerCall(rs[1..], s);
      if !Drops(rs[0], s) {
        forall j | 0 <= j < |rest| ensures !AddrEq(rs[0].call, rest[j].call) {
          var i := SweptFrom(rs[1..], s, j);
          assert rs[1..][i] == rs[i + 1];
        }
      }
    }
  }

  /** No end of a session or of a port and no tick takes a fixed entry away. */
  lemma SweepRespects(rs: seq<Route>, s: Sweep)
    requires OnePerCall(rs)
    ensures OnePerCall(Swept(rs, s)) && Respects(rs, Swept(rs, s))
  {
    hide AddrEq, Swept, OnePerCall;
    SweptOnePerCall(rs, s);
    var rs' := Swept(rs, s);
    forall i | 0 <= i < |rs| && Fixed(rs[i]) ensures Present(rs', rs[i].call, rs[i].dest) {
      var j := SweptKeeps(rs, s, i);
      Reflexive(rs[i].call);
      assert Holds(rs'[j], rs[i].call, rs[i].dest);
    }
    forall i, j | 0 <= i < |rs| && 0 <= j < |rs'| ensures OnceKept(rs[i], rs'[j]) {
      var k := SweptFrom(rs, s, j);
      if AddrEq(rs'[j].call, rs[i].call) { SameIndex(rs, k, i); }
    }
  }

  lemma HeardKeeps(rs: seq<Route>, dest: Peer, rdev: int, now: int)
    requires OnePerCall(rs)
    ensures OnePerCall(Heard(rs, dest, rdev, now)) && Respects(rs, Heard(rs, dest, rdev, now))
  {
    hide AddrEq;
    var rs' := Heard(rs, dest, rdev, now);
    forall j | 0 <= j < |rs|
      ensures rs'[j].call == rs[j].call && rs'[j].dest == rs[j].dest
      ensures rs'[j].perm == rs[j].perm && rs'[j].named == rs[j].named && rs'[j].once == rs[j].once
    {
    }
    forall j | 0 <= j < |rs| && Fixed(rs[j]) ensures Present(rs', rs[j].call, rs[j].dest) {
      Reflexive(rs[j].call);
      assert Holds(rs'[j], rs[j].call, rs[j].dest);
    }
    forall j, k | 0 <= j < |rs| && 0 <= k < |rs'| ensures OnceKept(rs[j], rs'[k]) {
      if AddrEq(rs'[k].call, rs[j].call) { SameIndex(rs, k, j); }
    }
  }

  // ----- runs -----

  datatype Event =
    | Receive(frame: Frame)
    | Lookup(call: Address, dest: Peer)
    | SessionHeard(call: Address, tsock: int, chan: int, proto: int, ifp: Option<Iface>, now: int)
    | Clean(sweep: Sweep)

  function Step(rs: seq<Route>, e: Event): seq<Route> {
    match e
    case Receive(f) => Received(rs, f).routes
    case Lookup(call, dest) => RouteAdd(rs, call, dest, true, Resolve, None).routes
    case SessionHeard(call, tsock, chan, proto, ifp, now) =>
      LearnTransport(rs, call, tsock, chan, proto, ifp, now).routes
    case Clean(s) => Swept(rs, s)
  }

  lemma {:induction false} FixedStays(rs: seq<Route>, rs': seq<Route>, call: Address, dest: Peer)
    requires Present(rs, call, dest) && Respects(rs, rs')
    ensures Present(rs', call, dest)
  {
    hide AddrEq;
    var i :| 0 <= i < |rs| && Holds(rs[i], call, dest);
    assert Present(rs', rs[i].call, rs[i].dest);
    var j :| 0 <= j < |rs'| && Holds(rs'[j], rs[i].call, rs[i].dest);
    AddrEqTransitive(rs'[j].call, rs[i].call, call);
    assert Holds(rs'[j], call, dest);
  }

  /** A permanent entry without a name stays, with its address, through every step. */
  lemma StepKeeps(rs: seq<Route>, e: Event, call: Address, dest: Peer)
    requires OnePerCall(rs)
    ensures OnePerCall(Step(rs, e)) && (Present(rs, call, dest) ==> Present(Step(rs, e), call, dest))
  {
    hide Respects, OnePerCall, Present, RouteAdd, LearnPort, LearnTransport, Heard, Swept;
    match e
    case Receive(f) =>
      var o := RouteAdd(rs, f.call, f.dest, false, Learned, Some(f.ifp));
      RouteAddKeeps(rs, f.call, f.dest, false, Learned, Some(f.ifp));
      Passes(rs, o.routes, call, dest);
      if o.ok {
        var port := if f.dest.Peer? then f.dest.port else 0;
        LearnPortKeeps(o.routes, f.call, port, f.edv, f.edvPort, f.trust, f.now);
        var rs1 := if f.udp then LearnPort(o.routes, f.call, port, f.edv, f.edvPort, f.trust, f.now) else o.routes;
        if f.udp { Passes(o.routes, rs1, call, dest); }
        HeardKeeps(rs1, f.dest, f.ifp.rdev, f.now);
        Passes(rs1, Heard(rs1, f.dest, f.ifp.rdev, f.now), call, dest);
      }
    case Lookup(c, d) =>
      RouteAddKeeps(rs, c, d, true, Resolve, None);
      Passes(rs, Step(rs, e), call, dest);
    case SessionHeard(c, tsock, chan, proto, ifp, now) =>
      LearnTransportKeeps(rs, c, tsock, chan, proto, ifp, now);
      Passes(rs, Step(rs, e), call, dest);
    case Clean(s) =>
      SweepRespects(rs, s);
      Passes(rs, Step(rs, e), call, dest);
  }

  lemma Passes(rs: seq<Route>, rs': seq<Route>, call: Address, dest: Peer)
    requires Respects(rs, rs')
    ensures Present(rs, call, dest) ==> Present(rs', call, dest)
  {
    hide Respects, Present;
    if Present(rs, call, dest) { FixedStays(rs, rs', call, dest); }
  }

  /** The `once` entries without a name have the address they had, if they are there. */
  ghost predicate AllOnceKept(rs: seq<Route>, rs': seq<Route>) {
    forall i, j :: 0 <= i < |rs| && 0 <= j < |rs'| ==> OnceKept(rs[i], rs'[j])
  }

  ghost predicate SamePlaces(rs: seq<Route>, rs': seq<Route>) {
    |rs| == |rs'| && forall i :: 0 <= i < |rs| ==>
      rs'[i].call == rs[i].call && rs'[i].dest == rs[i].dest && rs'[i].once == rs[i].once && rs'[i].named == rs[i].named
  }

  lemma PlacesAfterFrame(rs: seq<Route>, f: Frame)
    ensures SamePlaces(RouteAdd(rs, f.call, f.dest, false, Learned, Some(f.ifp)).routes, Received(rs, f).routes)
  {
    hide AddrEq, RouteAdd;
  }

  /** No step changes the address of a `once` entry that has no name, nor makes it
      another kind of entry. */
  lemma StepKeepsOnce(rs: seq<Route>, e: Event)
    requires OnePerCall(rs)
    ensures AllOnceKept(rs, Step(rs, e))
  {
    hide AddrEq, OnePerCall, Present, RouteAdd, LearnTransport, Swept, Received;
    match e
    case Receive(f) =>
      RouteAddKeeps(rs, f.call, f.dest, false, Learned, Some(f.ifp));
      PlacesAfterFrame(rs, f);
      var mid := RouteAdd(rs, f.call, f.dest, false, Learned, Some(f.ifp)).routes;
      forall i, j | 0 <= i < |rs| && 0 <= j < |Step(rs, e)| ensures OnceKept(rs[i], Step(rs, e)[j]) {
        assert OnceKept(rs[i], mid[j]);
      }
    case Lookup(c, d) => RouteAddKeeps(rs, c, d, true, Resolve, None);
    case SessionHeard(c, tsock, chan, proto, ifp, now) => LearnTransportKeeps(rs, c, tsock, chan, proto, ifp, now);
    case Clean(s) => SweepRespects(rs, s);
  }

  function Run(rs: seq<Route>, events: seq<Event>): seq<Route>
    decreases |events|
  {
    if events == [] then rs else Run(Step(rs, events[0]), events[1..])
  }

  /** Through every run of frames, lookups, sessions and ticks there is one entry
      for a call at most, and a permanent one without a name keeps its address. */
  lemma {:induction false} RunKeeps(rs: seq<Route>, events: seq<Event>, call: Address, dest: Peer)
    requires OnePerCall(rs)
    ensures OnePerCall(Run(rs, events)) && (Present(rs, call, dest) ==> Present(Run(rs, events), call, dest))
    decreases |events|
  {
    hide OnePerCall, Present, Step;
    if events != [] {
      StepKeeps(rs, events[0], call, dest);
      RunKeeps(Step(rs, events[0]), events[1..], call, dest);
    }
  }

  /** The call has an entry in the table and in every table of the run. */
  ghost predicate StaysListed(rs: seq<Route>, events: seq<Event>, call: Address)
    decreases |events|
  {
    Find(rs, call) < |rs| && (events != [] ==> StaysListed(Step(rs, events[0]), events[1..], call))
  }

  /** Through every run a `once` entry without a name keeps its address and stays one,
      as long as it is there. */
  lemma {:induction false} RunKeepsOnce(rs: seq<Route>, events: seq<Event>, call: Address)
    requires OnePerCall(rs) && StaysListed(rs, events, call)
    requires rs[Find(rs, call)].once && !rs[Find(rs, call)].named
    ensures var after := Run(rs, events); var i := Find(after, call);
            i < |after| && after[i].once && !after[i].named && Ip(after[i].dest, rs[Find(rs, call)].dest)
    decreases |events|
  {
    hide OnePerCall, AddrEq, Step, Find;
    if events != [] {
      var next := Step(rs, events[0]);
      StepKeeps(rs, events[0], call, NoPeer);
      StepKeepsOnce(rs, events[0]);
      SameEntry(rs, next, call);
      RunKeepsOnce(next, events[1..], call);
    }
  }

  /** The entry of the call before and after a step. */
  lemma SameEntry(rs: seq<Route>, rs': seq<Route>, call: Address)
    requires AllOnceKept(rs, rs') && Find(rs, call) < |rs| && Find(rs', call) < |rs'|
    ensures OnceKept(rs[Find(rs, call)], rs'[Find(rs', call)])
    ensures AddrEq(rs'[Find(rs', call)].call, rs[Find(rs, call)].call)
  {
    hide AddrEq;
    var r, r' := rs[Find(rs, call)], rs'[Find(rs', call)];
    AddrEqSymmetric(r.call, call);
    AddrEqTransitive(r'.call, call, r.call);
  }

  /** When a frame is taken from an address, and that the call then is there. */
  lemma FrameTakenIff(rs: seq<Route>, call: Address, dest: Peer, ifp: Iface)
    requires dest.Peer?
    ensures var o := RouteAdd(rs, call, dest, false, Learned, Some(ifp)); var i := Find(rs, call);
            && (o.ok <==> if i == |rs| then !ifp.learn.Off?
                          else SameIp(rs[i], dest) || (!rs[i].perm && !rs[i].once && !ifp.learn.Off?))
            && (o.ok ==>
                 exists j ::
                   0 <= j < |o.routes| && AddrEq(o.routes[j].call, call) && o.routes[j].dest == Peer(dest.ip, 0))
            && (!o.ok ==> o.routes == rs && o.refused)
  {
    hide AddrEq, AddrCopy;
    var o := RouteAdd(rs, call, dest, false, Learned, Some(ifp));
    var i := Find(rs, call);
    CopyIsEqual(call);
    if o.ok {
      var j := if i == |rs| then 0 else i;
      assert AddrEq(o.routes[j].call, call) && o.routes[j].dest == Peer(dest.ip, 0);
    }
  }

  /** The address of a permanent entry is kept, its port is not: a frame from the
      same address clears it. */
  lemma PortIsNotKept(call: Address, ip: int, port: int, ifp: Iface)
    requires port != 0
    ensures var r := Blank(call).(perm := true, written := true, dest := Peer(ip, port));
            RouteAdd([r], call, Peer(ip, port), false, Learned, Some(ifp)).routes[0].dest == Peer(ip, 0)
  {
    hide AddrEq, AddrCopy;
    CopyIsEqual(call);
    var r := Blank(call).(perm := true, written := true, dest := Peer(ip, port));
    assert Find([r], call) == 0;
  }

  // ----- the table as the program keeps it -----

  class AxipTable {
    var routes: seq<Route>
    var refusals: int

    constructor ()
      ensures routes == [] && refusals == 0
    {
      routes, refusals := [], 0;
    }

    method FindRoute(call: Address) returns (i: nat)
      ensures i == Find(routes, call)
    {
      hide AddrEq;
      i := 0;
      assert routes[0..] == routes;
      while i < |routes| && !AddrEq(routes[i].call, call)
        invariant i <= |routes| && Find(routes, call) == i + Find(routes[i..], call)
      {
        assert routes[i..][1..] == routes[i + 1..];
        i := i + 1;
      }
    }

    /** axip_route_add */
    method Add(call: Address, dest: Peer, keepport: bool, from: Source, ifp: Option<Iface>) returns (ok: bool)
      modifies this
      ensures var o := RouteAdd(old(routes), call, dest, keepport, from, ifp);
              routes == o.routes && ok == o.ok && refusals == old(refusals) + if o.refused then 1 else 0
    {
      hide AddrEq, AddrCopy, Entered, MayLearn, Rdev;
      if dest.NoPeer? { return false; }
      var i := FindRoute(call);
      if i == |routes| {
        if from.Learned? && !MayLearn(ifp) {
          refusals := refusals + 1;
          return false;
        }
        var r := Blank(call);
        if from.Learned? && ifp.Some? && ifp.value.learn.Once? { r := r.(once := true); }
        if !from.Learned? { r := r.(written := true); }
        routes, i := [r] + routes, 0;
      } else if !SameIp(routes[i], dest) {
        if from.Resolve? {
          if !routes[i].named {
            refusals := refusals + 1;
            return false;
          }
        } else if from.Learned? {
          if routes[i].perm || routes[i].once || !MayLearn(ifp) {
            refusals := refusals + 1;
            return false;
          }
        }
        if from.Sysop? { routes := routes[i := routes[i].(written := true)]; }
        routes := routes[i := routes[i].(lport := 0, ledv := 0, ltime := 0, udpDirect := false)];
      }
      Enter(i, dest, keepport, from, ifp);
      return true;
    }

    /** The end of axip_route_add: the address is written. */
    method Enter(i: nat, dest: Peer, keepport: bool, from: Source, ifp: Option<Iface>)
      requires i < |routes| && dest.Peer?
      modifies this`routes
      ensures routes == old(routes)[i := Entered(old(routes)[i], dest, keepport, from, ifp)]
    {
      routes := routes[i := routes[i].(dest := Peer(dest.ip, if keepport then dest.port else 0))];
      if from.Learned? && ifp.Some? && !routes[i].written {
        routes := routes[i := routes[i].(rdev := Rdev(ifp))];
      }
    }

    method FindSession(buf: Address, tsock: int) returns (k: nat)
      ensures k == FindOn(routes, buf, tsock)
    {
      hide AddrEq;
      k := 0;
      assert routes[0..] == routes;
      while k < |routes| && !(routes[k].tsock == tsock && AddrEq(routes[k].call, buf))
        invariant k <= |routes| && FindOn(routes, buf, tsock) == k + FindOn(routes[k..], buf, tsock)
      {
        assert routes[k..][1..] == routes[k + 1..];
        k := k + 1;
      }
    }

    /** axip_learn_transport */
    method SessionHas(call: Address, tsock: int, chan: int, proto: int, ifp: Option<Iface>, now: int) returns (ok: bool)
      modifies this
      ensures var o := LearnTransport(old(routes), call, tsock, chan, proto, ifp, now);
              routes == o.routes && ok == o.ok && refusals == old(refusals) + if o.refused then 1 else 0
    {
      hide AddrEq, AddrCopy, Attached, Foreign, MayLearn;
      var buf := AddrCopy(call);
      var k := FindSession(buf, tsock);
      if k < |routes| {
        routes := routes[k := routes[k].(tchan := chan, tproto := proto, htime := now)];
        return true;
      }
      var i := FindRoute(buf);
      if i < |routes| {
        if Foreign(routes[i], ifp) {
          refusals := refusals + 1;
          return false;
        }
      } else {
        if !MayLearn(ifp) {
          refusals := refusals + 1;
          return false;
        }
        var r := Blank(buf);
        if ifp.Some? && ifp.value.learn.Once? { r := r.(once := true); }
        routes, i := [r] + routes, 0;
      }
      routes := routes[i := Attached(routes[i], tsock, chan, proto, ifp, now)];
      return true;
    }

    /** The walk of axip_forget_transport, axip_forget_iface and axip_expiry_tick over
        the list; how many entries went. */
    method Forget(s: Sweep) returns (gone: nat)
      modifies this`routes
      ensures routes == Swept(old(routes), s) && gone == |old(routes)| - |routes|
    {
      hide Drops, Stays;
      var rp, kept := 0, [];
      gone := 0;
      assert routes[0..] == routes;
      while rp < |routes|
        invariant rp <= |routes| && routes == old(routes)
        invariant Swept(routes, s) == kept + Swept(routes[rp..], s) && gone + |kept| == rp
      {
        assert routes[rp..][1..] == routes[rp + 1..];
        if Drops(routes[rp], s) { gone := gone + 1; }
        else { kept := kept + [Stays(routes[rp], s)]; }
        rp := rp + 1;
      }
      routes := kept;
    }
  }
}
