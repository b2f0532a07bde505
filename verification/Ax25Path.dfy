/** axroute of src/ax25.c: completing the digipeater path of an outgoing header
    from the routing table. */
module Ax25Path {
  import opened Ax25Address
  import opened Ax25Header
  import opened RouteGraph
  import opened Ax25Routes

  /** ismyax25addr or axlisten_active */
  predicate AnswersTo(st: Station, call: Address) {
    IsMine(st, call) || exists l :: l in st.listened && AddrEq(l, call)
  }

  /** The index of the last address of the path that is one of ours, or -1. */
  function LastOwn(st: Station, path: seq<Address>): (pos: int)
    ensures -1 <= pos < |path|
    ensures pos >= 0 ==> AnswersTo(st, path[pos])
    ensures forall i :: pos < i < |path| ==> !AnswersTo(st, path[i])
  {
    if path == [] then -1
    else if AnswersTo(st, path[|path| - 1]) then |path| - 1
    else LastOwn(st, path[..|path| - 1])
  }

  /** The header without the digipeaters before our own position. */
  function Trimmed(st: Station, h: Hdr): Hdr {
    var pos := LastOwn(st, h.path);
    if pos > 0 then h.(path := Copies(h.path[pos..]), nextdigi := 1) else h.(nextdigi := pos + 1)
  }

  /** The digipeaters of the chain from rp on, the farthest first, as far as
      there is room for the nearest to the target. */
  function Inserted(nodes: Nodes, rp: Id, depth: nat, room: nat): seq<Address>
    requires NoDangling(nodes) && (rp == 0 || rp in nodes)
    decreases MAXDIGIS + 1 - depth
  {
    if rp == 0 || depth > MAXDIGIS then []
    else
      var digi := nodes[rp].digi;
      if digi != 0 && room > 0 then Inserted(nodes, digi, depth + 1, room - 1) + [AddrCopy(nodes[digi].target)]
      else Inserted(nodes, digi, depth + 1, room)
  }

  /** The port of the last entry the walk along the chain sees. */
  function ChainPort(nodes: Nodes, rp: Id, depth: nat, ifp: int): int
    requires NoDangling(nodes) && (rp == 0 || rp in nodes)
    decreases MAXDIGIS + 1 - depth
  {
    if rp == 0 || depth > MAXDIGIS then ifp else ChainPort(nodes, nodes[rp].digi, depth + 1, nodes[rp].ifp)
  }

  lemma {:induction false} InsertedFits(nodes: Nodes, rp: Id, depth: nat, room: nat)
    requires NoDangling(nodes) && (rp == 0 || rp in nodes)
    ensures |Inserted(nodes, rp, depth, room)| <= room
    decreases MAXDIGIS + 1 - depth
  {
    if rp != 0 && depth <= MAXDIGIS {
      var digi := nodes[rp].digi;
      if digi != 0 && room > 0 { InsertedFits(nodes, digi, depth + 1, room - 1); }
      else { InsertedFits(nodes, digi, depth + 1, room); }
    }
  }

  function Forwarded(st: Station, ifp: int): int {
    if ifp in st.ifaces && st.ifaces[ifp].forw != 0 then st.ifaces[ifp].forw else ifp
  }

  /** p with the addresses `ins` put in at index nd; what is moved is copied. */
  function Spliced(p: seq<Address>, nd: int, ins: seq<Address>): seq<Address>
    requires 0 <= nd <= |p|
  {
    if ins == [] then p else p[..nd] + ins + Copies(p[nd..])
  }

  /** rp is what the table has for the call, null for nothing. */
  ghost predicate RouteFor(nodes: Nodes, call: Address, rp: Id) {
    if rp == 0 then NoneFor(nodes, call) else rp in nodes && AddrEq(nodes[rp].target, call)
  }

  /** Both paths name the same stations: they differ in flag bits at most. */
  ghost predicate SameStations(p: seq<Address>, q: seq<Address>) {
    Copies(p) == Copies(q)
  }

  /** What the walk along the chain adds. */
  function Additions(nodes: Nodes, rp: Id, h: Hdr, keepPath: bool): seq<Address>
    requires NoDangling(nodes) && (rp == 0 || rp in nodes) && Ax25Header.WellFormed(h)
  {
    if keepPath then [] else Inserted(nodes, rp, 0, MAXDIGIS - |h.path|)
  }

  /** The path once the walk is over and what led to no port is withdrawn. */
  function RoutedPath(nodes: Nodes, rp: Id, h: Hdr, keepPath: bool): seq<Address>
    requires NoDangling(nodes) && (rp == 0 || rp in nodes) && Ax25Header.WellFormed(h)
  {
    var ins := Additions(nodes, rp, h, keepPath);
    if ins != [] && ChainPort(nodes, rp, 0, 0) == 0 then h.path[..h.nextdigi] + Copies(h.path[h.nextdigi..])
    else Spliced(h.path, h.nextdigi, ins)
  }

  function OutPort(st: Station, nodes: Nodes, rp: Id): int
    requires NoDangling(nodes) && (rp == 0 || rp in nodes)
  {
    var ifp := ChainPort(nodes, rp, 0, 0);
    Forwarded(st, if ifp == 0 then st.defaultIfp else ifp)
  }

  function Hwaddr(st: Station, ifp: int): Address {
    if ifp in st.ifaces then st.ifaces[ifp].hwaddr else NULL_CALL
  }

  /** Our own call on the way out is the one of the port. */
  function UnderPortCall(st: Station, h: Hdr, ifp: int): Hdr
    requires 0 <= h.nextdigi <= |h.path|
  {
    if h.nextdigi == 0 then h.(source := AddrCopy(Hwaddr(st, ifp)))
    else if IsMine(st, h.path[0]) then h.(path := [AddrCopy(Hwaddr(st, ifp))] + h.path[1..])
    else h
  }

  /** What is kept of a path whatever the table holds: the part behind us, and
      the stations the user named as its end. What is put in between fits. */
  lemma PathIsKept(nodes: Nodes, rp: Id, h: Hdr, keepPath: bool)
    requires NoDangling(nodes) && (rp == 0 || rp in nodes) && Ax25Header.WellFormed(h)
    ensures var p := RoutedPath(nodes, rp, h, keepPath);
            && |h.path| <= |p| <= MAXDIGIS
            && p[..h.nextdigi] == h.path[..h.nextdigi]
            && SameStations(p[|p| - |h.path| + h.nextdigi..], h.path[h.nextdigi..])
            && (keepPath ==> p == h.path)
            && (ChainPort(nodes, rp, 0, 0) == 0 ==> SameStations(p, h.path))
  {
    hide AddrCopy, ChainPort, NoDangling, Inserted, SameStations;
    InsertedFits(nodes, rp, 0, MAXDIGIS - |h.path|);
    SameAsItself(h.path, h.nextdigi);
    SpliceKeeps(h.path, h.nextdigi, Additions(nodes, rp, h, keepPath));
  }

  lemma SameAsItself(p: seq<Address>, nd: int)
    requires 0 <= nd <= |p|
    ensures SameStations(p, p) && SameStations(p[nd..], p[nd..])
    ensures var q := p[..nd] + Copies(p[nd..]);
            SameStations(q, p) && |q| == |p| && q[..nd] == p[..nd] && q[|q| - |p| + nd..] == Copies(p[nd..])
    ensures SameStations(Copies(p[nd..]), p[nd..])
  {
    hide AddrCopy;
    CopiesAgain(p[nd..]);
    CopiesAppend(p[..nd], Copies(p[nd..]));
    CopiesAppend(p[..nd], p[nd..]);
    assert p[..nd] + p[nd..] == p;
  }

  lemma SpliceKeeps(p: seq<Address>, nd: int, ins: seq<Address>)
    requires 0 <= nd <= |p|
    ensures var q := Spliced(p, nd, ins);
            && |q| == |p| + |ins| && q[..nd] == p[..nd]
            && q[|q| - |p| + nd..] == if ins == [] then p[nd..] else Copies(p[nd..])
  {
    hide AddrCopy;
  }

  lemma CopiesAgain(p: seq<Address>)
    ensures Copies(Copies(p)) == Copies(p)
  {
    hide AddrCopy;
    forall i | 0 <= i < |p| ensures Copies(Copies(p))[i] == Copies(p)[i] {
      CopyIsEqual(p[i]);
    }
  }

  lemma CopiesAppend(p: seq<Address>, q: seq<Address>)
    ensures Copies(p + q) == Copies(p) + Copies(q)
  {
    hide AddrCopy;
  }

  // ----- what leaves this node -----

  /** The call of one of the ports. */
  ghost predicate OfPort(st: Station, call: Address) {
    exists i :: i in st.ifaces && st.ifaces[i].ax25 && AddrEq(st.ifaces[i].hwaddr, call)
  }

  lemma OwnCall(st: Station, call: Address)
    ensures IsMine(st, call) <==> OfPort(st, call)
  {
    hide AddrEq;
    if i :| i in st.ifaces && st.ifaces[i].ax25 && AddrEq(st.ifaces[i].hwaddr, call) { assert i in st.ifaces.Keys; }
  }

  /** A call this node answers to: that of a port, or one it listens for. */
  ghost predicate Ours(st: Station, call: Address) {
    OfPort(st, call) || exists l :: l in st.listened && AddrCopy(l) == AddrCopy(call)
  }

  lemma OursIs(st: Station, call: Address)
    ensures AnswersTo(st, call) <==> Ours(st, call)
  {
    hide AddrEq, AddrCopy, IsMine, OfPort;
    OwnCall(st, call);
    forall l: Address ensures AddrEq(l, call) <==> AddrCopy(l) == AddrCopy(call) { AddrEqIsSameCopy(l, call); }
  }

  /** Our own position after the trimming: no address still to come is one of ours,
      and the one before, if any, is; what comes after it is as it was. */
  lemma TrimmedAtOwn(st: Station, h: Hdr)
    ensures var t := Trimmed(st, h);
            && t == h.(path := t.path, nextdigi := t.nextdigi) && 0 <= t.nextdigi <= |t.path| && t.nextdigi <= 1
            && (forall i :: t.nextdigi <= i < |t.path| ==> !Ours(st, t.path[i]))
            && (t.nextdigi == 1 ==> Ours(st, t.path[0]))
            && |t.path| <= |h.path| && SameStations(t.path, h.path[|h.path| - |t.path|..])
            && (t.nextdigi == 0 ==> t.path == h.path)
  {
    hide AddrCopy, AnswersTo, Ours, SameStations, Trimmed;
    TrimmedAnswers(st, h);
    var t := Trimmed(st, h);
    forall i | t.nextdigi <= i < |t.path| ensures !Ours(st, t.path[i]) { OursIs(st, t.path[i]); }
    if t.nextdigi == 1 { OursIs(st, t.path[0]); }
  }

  lemma TrimmedAnswers(st: Station, h: Hdr)
    ensures var t := Trimmed(st, h);
            && t == h.(path := t.path, nextdigi := t.nextdigi) && 0 <= t.nextdigi <= |t.path| && t.nextdigi <= 1
            && (forall i :: t.nextdigi <= i < |t.path| ==> !AnswersTo(st, t.path[i]))
            && (t.nextdigi == 1 ==> AnswersTo(st, t.path[0]))
            && |t.path| <= |h.path| && SameStations(t.path, h.path[|h.path| - |t.path|..])
            && (t.nextdigi == 0 ==> t.path == h.path)
  {
    hide AddrCopy, AnswersTo, SameStations, Copies;
    var pos := LastOwn(st, h.path);
    if pos > 0 {
      CutBehind(st, h.path, pos);
      assert |h.path| - |h.path[pos..]| == pos;
    } else {
      SameAsItself(h.path, 0);
      assert h.path[0..] == h.path;
    }
  }

  lemma CutBehind(st: Station, path: seq<Address>, pos: nat)
    requires 0 < pos < |path| && AnswersTo(st, path[pos]) && forall i :: pos < i < |path| ==> !AnswersTo(st, path[i])
    ensures var p := Copies(path[pos..]);
            && |p| == |path| - pos && SameStations(p, path[pos..]) && AnswersTo(st, p[0])
            && forall i :: 1 <= i < |p| ==> !AnswersTo(st, p[i])
  {
    hide AddrCopy, AnswersTo;
    CopiesAgain(path[pos..]);
    var p := Copies(path[pos..]);
    forall i | 0 <= i < |p| ensures AnswersTo(st, p[i]) <==> AnswersTo(st, path[pos + i]) {
      assert p[i] == AddrCopy(path[pos..][i]);
      CopyIsAnswered(st, path[pos + i]);
    }
  }

  lemma CopyIsAnswered(st: Station, call: Address)
    ensures AnswersTo(st, AddrCopy(call)) <==> AnswersTo(st, call)
  {
    hide AddrCopy, AddrEq;
    CopyIsEqual(call);
    forall a: Address ensures AddrEq(a, AddrCopy(call)) <==> AddrEq(a, call) {
      AddrEqIsSameCopy(a, AddrCopy(call));
      AddrEqIsSameCopy(a, call);
    }
  }

  /** The k-th entry of the chain from rp is the last one that a header has room for
      or the last one there is. */
  ghost predicate EndOfChain(nodes: Nodes, rp: Id, k: nat) {
    k <= MAXDIGIS && Hop(nodes, rp, k) in nodes && (k == MAXDIGIS || Hop(nodes, rp, k + 1) == 0)
  }

  lemma {:induction false} PortAtEnd(nodes: Nodes, rp: Id, depth: nat, ifp: int, k: nat)
    requires NoDangling(nodes) && rp in nodes && depth + k <= MAXDIGIS
    requires Hop(nodes, rp, k) in nodes && (depth + k == MAXDIGIS || Hop(nodes, rp, k + 1) == 0)
    ensures ChainPort(nodes, rp, depth, ifp) == nodes[Hop(nodes, rp, k)].ifp
    decreases k
  {
    if k == 0 {
      assert Hop(nodes, rp, 1) == Hop(nodes, nodes[rp].digi, 0);
    } else {
      PortAtEnd(nodes, nodes[rp].digi, depth + 1, nodes[rp].ifp, k - 1);
    }
  }

  /** The port: that of the last entry of the chain, or the default where there is no
      entry or it names none; and the port forw says instead of it. */
  lemma PortIs(st: Station, nodes: Nodes, rp: Id, k: nat)
    requires NoDangling(nodes) && (rp == 0 || EndOfChain(nodes, rp, k))
    ensures rp == 0 || rp in nodes
    ensures var chain := if rp == 0 then 0 else nodes[Hop(nodes, rp, k)].ifp;
            var port := if chain != 0 then chain else st.defaultIfp;
            OutPort(st, nodes, rp) ==
              if port in st.ifaces && st.ifaces[port].forw != 0 then st.ifaces[port].forw else port
  {
    hide NoDangling;
    if rp != 0 {
      assert rp in nodes;
      PortAtEnd(nodes, rp, 0, 0, k);
    }
  }

  /** The addresses are those of the hops of the chain from rp, the nearest one last. */
  ghost predicate AreHops(nodes: Nodes, rp: Id, ins: seq<Address>) {
    forall i :: 0 <= i < |ins| ==> IsHop(nodes, rp, |ins| - i, ins[i])
  }

  ghost predicate IsHop(nodes: Nodes, rp: Id, k: nat, a: Address) {
    Hop(nodes, rp, k) in nodes && a == AddrCopy(nodes[Hop(nodes, rp, k)].target)
  }

  /** What is put in are the hops of the chain, and all of them if there is room. */
  lemma {:induction false} InsertedHops(nodes: Nodes, rp: Id, depth: nat, room: nat)
    requires NoDangling(nodes) && rp in nodes && depth + room <= MAXDIGIS
    ensures var ins := Inserted(nodes, rp, depth, room);
            |ins| <= room && AreHops(nodes, rp, ins) && (|ins| < room ==> Hop(nodes, rp, |ins| + 1) == 0)
    decreases room
  {
    hide AddrCopy;
    InsertedFits(nodes, rp, depth, room);
    var digi := nodes[rp].digi;
    var ins := Inserted(nodes, rp, depth, room);
    if digi == 0 {
      assert Hop(nodes, rp, 1) == Hop(nodes, 0, 0);
    } else if room == 0 {
      InsertedFits(nodes, digi, depth + 1, 0);
    } else {
      var rest := Inserted(nodes, digi, depth + 1, room - 1);
      InsertedHops(nodes, digi, depth + 1, room - 1);
      assert ins == rest + [AddrCopy(nodes[digi].target)];
      HopsOneMore(nodes, rp, rest);
    }
  }

  lemma HopsOneMore(nodes: Nodes, rp: Id, rest: seq<Address>)
    requires NoDangling(nodes) && rp in nodes && nodes[rp].digi in nodes && AreHops(nodes, nodes[rp].digi, rest)
    ensures AreHops(nodes, rp, rest + [AddrCopy(nodes[nodes[rp].digi].target)])
    ensures Hop(nodes, rp, |rest| + 2) == Hop(nodes, nodes[rp].digi, |rest| + 1)
  {
    hide AddrCopy, NoDangling;
    var ins := rest + [AddrCopy(nodes[nodes[rp].digi].target)];
    forall i | 0 <= i < |ins| ensures IsHop(nodes, rp, |ins| - i, ins[i]) {
      assert Hop(nodes, rp, |ins| - i) == Hop(nodes, nodes[rp].digi, |ins| - i - 1);
      if i < |rest| { assert IsHop(nodes, nodes[rp].digi, |rest| - i, rest[i]); }
    }
  }

  /** The digipeaters of a frame that leaves over a chain with a port: what is behind
      us, the hops of the chain, and the stations the user named as its end. */
  lemma LeavesThrough(st: Station, nodes: Nodes, rp: Id, h: Hdr, k: nat)
    requires NoDangling(nodes) && rp in nodes && EndOfChain(nodes, rp, k) && Ax25Header.WellFormed(h)
    requires nodes[Hop(nodes, rp, k)].ifp != 0
    ensures var p := Completed(st, nodes, rp, h, false).path; var nd := h.nextdigi; var n := |p| - |h.path|;
            && 0 <= n && |p| <= MAXDIGIS && (|p| < MAXDIGIS ==> Hop(nodes, rp, n + 1) == 0)
            && (forall i :: 0 < i < nd ==> p[i] == h.path[i])
            && AreHops(nodes, rp, p[nd..nd + n]) && SameStations(p[nd + n..], h.path[nd..])
  {
    hide AddrCopy, Copies, NoDangling, UnderPortCall, SameStations, AreHops, Hop, RoutedPath, EndOfChain, OutPort;
    PathThrough(nodes, rp, h, k);
    PathIsKept(nodes, rp, h, false);
    var p, nd := RoutedPath(nodes, rp, h, false), h.nextdigi;
    OnlyTheFirst(st, p, nd, OutPort(st, nodes, rp), h, |p| - |h.path|);
  }

  lemma PathThrough(nodes: Nodes, rp: Id, h: Hdr, k: nat)
    requires NoDangling(nodes) && rp in nodes && EndOfChain(nodes, rp, k) && Ax25Header.WellFormed(h)
    requires nodes[Hop(nodes, rp, k)].ifp != 0
    ensures var p := RoutedPath(nodes, rp, h, false); var nd := h.nextdigi; var n := |p| - |h.path|;
            && 0 <= n && |p| <= MAXDIGIS && (|p| < MAXDIGIS ==> Hop(nodes, rp, n + 1) == 0)
            && AreHops(nodes, rp, p[nd..nd + n])
  {
    hide AddrCopy, Copies, Inserted, ChainPort, NoDangling, AreHops, Hop;
    PortAtEnd(nodes, rp, 0, 0, k);
    var ins := Inserted(nodes, rp, 0, MAXDIGIS - |h.path|);
    InsertedHops(nodes, rp, 0, MAXDIGIS - |h.path|);
    var p, nd := RoutedPath(nodes, rp, h, false), h.nextdigi;
    SpliceKeeps(h.path, nd, ins);
    assert p[nd..nd + |ins|] == ins;
  }

  /** And where the chain leads to no port: as many stations as before, the same ones. */
  lemma LeavesDirectly(st: Station, nodes: Nodes, rp: Id, h: Hdr, k: nat)
    requires NoDangling(nodes) && Ax25Header.WellFormed(h)
    requires rp == 0 || (rp in nodes && EndOfChain(nodes, rp, k) && nodes[Hop(nodes, rp, k)].ifp == 0)
    ensures var p := Completed(st, nodes, rp, h, false).path; var nd := h.nextdigi;
            && |p| == |h.path| && (forall i :: 0 < i < nd ==> p[i] == h.path[i])
            && SameStations(p[nd..], h.path[nd..])
  {
    hide AddrCopy, Copies, NoDangling, UnderPortCall, SameStations, Hop, OutPort, Inserted;
    if rp != 0 { PortAtEnd(nodes, rp, 0, 0, k); }
    PathIsKept(nodes, rp, h, false);
    var p := RoutedPath(nodes, rp, h, false);
    OnlyTheFirst(st, p, h.nextdigi, OutPort(st, nodes, rp), h, |p| - |h.path|);
  }

  lemma OnlyTheFirst(st: Station, p: seq<Address>, nd: nat, ifp: int, h: Hdr, n: nat)
    requires nd + n <= |p| && nd <= |h.path| && h.nextdigi == nd
    ensures var q := UnderPortCall(st, h.(path := p), ifp).path;
            && |q| == |p| && q[nd..nd + n] == p[nd..nd + n] && q[nd + n..] == p[nd + n..]
            && forall i :: 0 < i < nd ==> q[i] == p[i]
  {
    hide AddrCopy, IsMine;
  }

  /** The call a frame leaves with: our own frames with the one of the port; those we
      hand on with that call in the place of ours, and with their own source. The
      station it is for never changes. */
  lemma LeavesAs(st: Station, nodes: Nodes, rp: Id, h: Hdr, keepPath: bool)
    requires NoDangling(nodes) && (rp == 0 || rp in nodes) && Ax25Header.WellFormed(h)
    ensures var r := Completed(st, nodes, rp, h, keepPath); var ifp := OutPort(st, nodes, rp);
            var own := h.nextdigi > 0 && OfPort(st, h.path[0]);
            && r == h.(source := r.source, path := r.path) && |r.path| >= |h.path|
            && (keepPath ==> r == h)
            && (keepPath || ifp == 0 || h.nextdigi > 0 ==> r.source == h.source)
            && (h.nextdigi > 0 && (keepPath || ifp == 0 || !own) ==> r.path[0] == h.path[0])
            && (!keepPath && ifp != 0 && ifp in st.ifaces ==>
                  && (h.nextdigi == 0 ==> r.source == AddrCopy(st.ifaces[ifp].hwaddr))
                  && (h.nextdigi > 0 && own ==> r.path[0] == AddrCopy(st.ifaces[ifp].hwaddr)))
  {
    hide AddrCopy, AddrEq, Copies, Inserted, ChainPort, NoDangling, SameStations, OutPort, RoutedPath, IsMine, OfPort;
    PathIsKept(nodes, rp, h, keepPath);
    var p := RoutedPath(nodes, rp, h, keepPath);
    if h.nextdigi > 0 {
      assert p[0] == p[..h.nextdigi][0] == h.path[0];
      OwnCall(st, h.path[0]);
    }
  }

  // ----- moving addresses inside the header -----

  /** The addresses from index `from` to n go down by d. */
  method MoveDown(digis: array<Address>, from: int, d: int, n: int)
    requires 0 < d <= from <= n <= digis.Length
    modifies digis
    ensures digis[..n - d] == old(digis[..from - d]) + Copies(old(digis[from..n]))
  {
    hide AddrCopy;
    for i := from to n
      invariant forall k :: 0 <= k < from - d ==> digis[k] == old(digis[k])
      invariant forall k :: from <= k < i ==> digis[k - d] == AddrCopy(old(digis[k]))
      invariant forall k :: i <= k < n ==> digis[k] == old(digis[k])
    {
      digis[i - d] := AddrCopy(digis[i]);
    }
    ghost var moved := Copies(old(digis[from..n]));
    forall k | 0 <= k < n - from ensures digis[from - d + k] == moved[k] {
      assert digis[(from + k) - d] == AddrCopy(old(digis[from + k]));
    }
    assert digis[from - d..n - d] == moved && digis[..from - d] == old(digis[..from - d]);
    assert digis[..n - d] == digis[..from - d] + digis[from - d..n - d];
  }

  /** The addresses from index nd to n go up by one. */
  method MoveUp(digis: array<Address>, nd: int, n: int)
    requires 0 <= nd <= n < digis.Length
    modifies digis
    ensures digis[..nd] == old(digis[..nd]) && digis[nd + 1..n + 1] == Copies(old(digis[nd..n]))
  {
    hide AddrCopy;
    var i := n - 1;
    while i >= nd
      invariant nd - 1 <= i < n
      invariant forall k :: 0 <= k <= i ==> digis[k] == old(digis[k])
      invariant forall k :: i < k < n ==> digis[k + 1] == AddrCopy(old(digis[k]))
    {
      digis[i + 1] := AddrCopy(digis[i]);
      i := i - 1;
    }
    MovedUp(old(digis[..]), digis[..], nd, n);
    assert digis[nd + 1..n + 1] == digis[..][nd + 1..n + 1] && old(digis[nd..n]) == old(digis[..])[nd..n];
    assert digis[..nd] == digis[..][..nd] && old(digis[..nd]) == old(digis[..])[..nd];
  }

  lemma MovedUp(a: seq<Address>, b: seq<Address>, nd: int, n: int)
    requires 0 <= nd <= n < |a| == |b|
    requires forall k :: 0 <= k < nd ==> b[k] == a[k]
    requires forall k :: nd <= k < n ==> b[k + 1] == AddrCopy(a[k])
    ensures b[..nd] == a[..nd] && b[nd + 1..n + 1] == Copies(a[nd..n])
  {
    hide AddrCopy;
    var moved := Copies(a[nd..n]);
    forall k | 0 <= k < n - nd ensures b[nd + 1..n + 1][k] == moved[k] {
      assert b[(nd + k) + 1] == AddrCopy(a[nd + k]) && a[nd..n][k] == a[nd + k];
    }
  }

  /** As above, and a copy of a comes to nd. */
  method InsertAt(digis: array<Address>, nd: int, n: int, a: Address)
    requires 0 <= nd <= n < digis.Length
    modifies digis
    ensures digis[..n + 1] == old(digis[..nd]) + [AddrCopy(a)] + Copies(old(digis[nd..n]))
  {
    hide AddrCopy, Copies;
    MoveUp(digis, nd, n);
    ghost var moved := digis[nd + 1..n + 1];
    digis[nd] := AddrCopy(a);
    assert digis[nd + 1..n + 1] == moved;
    Pieces(digis, nd, n + 1);
  }

  lemma Pieces(digis: array<Address>, nd: int, n: int)
    requires 0 <= nd < n <= digis.Length
    ensures digis[..n] == digis[..nd] + [digis[nd]] + digis[nd + 1..n]
  {
  }

  // ----- axroute -----

  /** Our own position is found and the digipeaters before it are removed. */
  method Trim(st: Station, hdr: Ax25)
    requires hdr.Valid()
    modifies hdr`ndigis, hdr`nextdigi, hdr.digis
    ensures hdr.Valid() && hdr.View() == Trimmed(st, old(hdr.View()))
  {
    hide AddrCopy, AnswersTo, Copies, LastOwn;
    ghost var path := hdr.digis[..hdr.ndigis];
    var pos := FindOwn(st, hdr.digis, hdr.ndigis);
    hdr.nextdigi := pos + 1;
    if pos > 0 {
      assert hdr.digis[pos..hdr.ndigis] == path[pos..];
      MoveDown(hdr.digis, pos, pos, hdr.ndigis);
      hdr.ndigis := hdr.ndigis - pos;
      hdr.nextdigi := 1;
    }
  }

  /** The search for our own position. */
  method FindOwn(st: Station, digis: array<Address>, n: int) returns (i: int)
    requires 0 <= n <= digis.Length
    ensures i == LastOwn(st, digis[..n])
  {
    hide AnswersTo;
    i := n - 1;
    while i >= 0 && !AnswersTo(st, digis[i])
      invariant -1 <= i < n && LastOwn(st, digis[..n]) == LastOwn(st, digis[..i + 1])
    {
      assert digis[..i + 1][..i] == digis[..i];
      i := i - 1;
    }
  }

  /** The walk has come to rp, and what is left of it completes `so`. */
  ghost predicate Walking(nodes: Nodes, rp0: Id, h: Hdr, keepPath: bool, rp: Id, depth: nat, ifp: int,
      so: seq<Address>) {
    && Ax25Header.WellFormed(h) && NoDangling(nodes) && (rp0 == 0 || rp0 in nodes) && (rp == 0 || rp in nodes)
    && |h.path| + |so| <= MAXDIGIS && Copies(so) == so
    && ChainPort(nodes, rp0, 0, 0) == ChainPort(nodes, rp, depth, ifp)
    && if keepPath then so == []
       else Inserted(nodes, rp0, 0, MAXDIGIS - |h.path|) == Inserted(nodes, rp, depth, MAXDIGIS - |h.path| - |so|) + so
  }

  lemma WalkOn(nodes: Nodes, rp0: Id, h: Hdr, keepPath: bool, rp: Id, depth: nat, ifp: int, so: seq<Address>)
    requires Walking(nodes, rp0, h, keepPath, rp, depth, ifp, so)
    requires rp != 0 && depth <= MAXDIGIS
    ensures var r := nodes[rp];
            if !keepPath && r.digi != 0 && |h.path| + |so| < MAXDIGIS then
              r.digi in nodes && Walking(nodes, rp0, h, keepPath,
                  r.digi, depth + 1, r.ifp, [AddrCopy(nodes[r.digi].target)] + so)
            else Walking(nodes, rp0, h, keepPath, r.digi, depth + 1, r.ifp, so)
  {
    hide AddrCopy, NoDangling, Copies, Spliced, Inserted, ChainPort;
    NextHop(nodes, rp);
    var r := nodes[rp];
    if !keepPath && r.digi != 0 && |h.path| + |so| < MAXDIGIS {
      SplicedMore(h.path, h.nextdigi, so, nodes[r.digi].target);
      WalkInserts(nodes, rp0, h, rp, depth, ifp, so);
    } else {
      WalkPasses(nodes, rp0, h, keepPath, rp, depth, ifp, so);
    }
  }

  lemma WalkInserts(nodes: Nodes, rp0: Id, h: Hdr, rp: Id, depth: nat, ifp: int, so: seq<Address>)
    requires Walking(nodes, rp0, h, false, rp, depth, ifp, so)
    requires rp != 0 && depth <= MAXDIGIS && |h.path| + |so| < MAXDIGIS
    requires nodes[rp].digi in nodes && nodes[rp].digi != 0
    requires var a := AddrCopy(nodes[nodes[rp].digi].target); Copies([a] + so) == [a] + so
    ensures var r := nodes[rp];
            Walking(nodes, rp0, h, false, r.digi, depth + 1, r.ifp, [AddrCopy(nodes[r.digi].target)] + so)
  {
    hide AddrCopy, NoDangling, Copies, Inserted, ChainPort;
    var digi, room := nodes[rp].digi, MAXDIGIS - |h.path| - |so|;
    var a := AddrCopy(nodes[digi].target);
    OneHop(nodes, rp, depth, room, ifp);
    var ins := Inserted(nodes, digi, depth + 1, room - 1);
    assert ins + [a] + so == ins + ([a] + so);
  }

  lemma OneHop(nodes: Nodes, rp: Id, depth: nat, room: nat, ifp: int)
    requires NoDangling(nodes) && rp in nodes && rp != 0 && depth <= MAXDIGIS
    requires nodes[rp].digi == 0 || nodes[rp].digi in nodes
    ensures var digi := nodes[rp].digi;
            && ChainPort(nodes, rp, depth, ifp) == ChainPort(nodes, digi, depth + 1, nodes[rp].ifp)
            && Inserted(nodes, rp, depth, room) ==
                 if digi != 0 && room > 0
                 then Inserted(nodes, digi, depth + 1, room - 1) + [AddrCopy(nodes[digi].target)]
                 else Inserted(nodes, digi, depth + 1, room)
  {
    hide AddrCopy, NoDangling;
  }

  lemma WalkPasses(nodes: Nodes, rp0: Id, h: Hdr, keepPath: bool, rp: Id, depth: nat, ifp: int, so: seq<Address>)
    requires Walking(nodes, rp0, h, keepPath, rp, depth, ifp, so) && rp != 0 && depth <= MAXDIGIS
    requires nodes[rp].digi == 0 || nodes[rp].digi in nodes
    requires keepPath || nodes[rp].digi == 0 || |h.path| + |so| >= MAXDIGIS
    ensures Walking(nodes, rp0, h, keepPath, nodes[rp].digi, depth + 1, nodes[rp].ifp, so)
  {
    hide AddrCopy, NoDangling, Copies, Inserted, ChainPort;
    OneHop(nodes, rp, depth, MAXDIGIS - |h.path| - |so|, ifp);
  }

  /** The walk along the chain. */
  method FollowChain(hdr: Ax25, nodes: Nodes, rp0: Id, keepPath: bool) returns (ifp: int, added: int)
    requires hdr.Valid() && Ax25Header.WellFormed(hdr.View()) && NoDangling(nodes) && (rp0 == 0 || rp0 in nodes)
    modifies hdr`ndigis, hdr.digis
    ensures hdr.Valid() && ifp == ChainPort(nodes, rp0, 0, 0)
    ensures var h := old(hdr.View()); var ins := Additions(nodes, rp0, h, keepPath);
            added == |ins| && hdr.View() == h.(path := Spliced(h.path, h.nextdigi, ins))
  {
    hide AddrCopy, NoDangling, Inserted, Copies, Spliced, Walking, ChainPort;
    ghost var h := hdr.View();
    ghost var so: seq<Address> := [];
    var rp, depth := rp0, 0;
    ifp, added := 0, 0;
    StartWalking(nodes, rp0, h, keepPath);
    while rp != 0 && depth <= MAXDIGIS
      invariant 0 <= depth && Walking(nodes, rp0, h, keepPath, rp, depth, ifp, so)
      invariant hdr.Valid() && added == |so| && hdr.View() == h.(path := Spliced(h.path, h.nextdigi, so))
      invariant hdr.ndigis == |h.path| + added
      decreases MAXDIGIS + 1 - depth
    {
      WalkOn(nodes, rp0, h, keepPath, rp, depth, ifp, so);
      StillWalking(nodes, rp0, h, keepPath, rp, depth, ifp, so);
      var r := nodes[rp];
      if !keepPath && r.digi != 0 && hdr.ndigis < MAXDIGIS {
        SplicedMore(h.path, h.nextdigi, so, nodes[r.digi].target);
        AddDigi(hdr, nodes[r.digi].target);
        so := [AddrCopy(nodes[r.digi].target)] + so;
        added := added + 1;
      }
      ifp := r.ifp;
      rp, depth := r.digi, depth + 1;
    }
    WalkEnds(nodes, rp0, h, keepPath, rp, depth, ifp, so);
  }

  method AddDigi(hdr: Ax25, a: Address)
    requires hdr.Valid() && 0 <= hdr.nextdigi <= hdr.ndigis < MAXDIGIS
    modifies hdr`ndigis, hdr.digis
    ensures hdr.Valid() && hdr.ndigis == old(hdr.ndigis) + 1
    ensures var h := old(hdr.View());
            hdr.View() == h.(path := h.path[..h.nextdigi] + [AddrCopy(a)] + Copies(h.path[h.nextdigi..]))
  {
    hide AddrCopy, Copies;
    ghost var p, nd := hdr.digis[..hdr.ndigis], hdr.nextdigi;
    assert p[..nd] == hdr.digis[..nd] && p[nd..] == hdr.digis[nd..hdr.ndigis];
    InsertAt(hdr.digis, hdr.nextdigi, hdr.ndigis, a);
    hdr.ndigis := hdr.ndigis + 1;
  }

  lemma StartWalking(nodes: Nodes, rp0: Id, h: Hdr, keepPath: bool)
    requires Ax25Header.WellFormed(h) && NoDangling(nodes) && (rp0 == 0 || rp0 in nodes)
    ensures Walking(nodes, rp0, h, keepPath, rp0, 0, 0, [])
    ensures Spliced(h.path, h.nextdigi, []) == h.path
  {
    hide NoDangling, ChainPort, Inserted;
    assert Inserted(nodes, rp0, 0, MAXDIGIS - |h.path|) + [] == Inserted(nodes, rp0, 0, MAXDIGIS - |h.path|);
  }

  lemma StillWalking(nodes: Nodes, rp0: Id, h: Hdr, keepPath: bool, rp: Id, depth: nat, ifp: int, so: seq<Address>)
    requires Walking(nodes, rp0, h, keepPath, rp, depth, ifp, so) && rp != 0
    ensures rp in nodes && |h.path| + |so| <= MAXDIGIS && Copies(so) == so
  {
  }

  lemma WalkEnds(nodes: Nodes, rp0: Id, h: Hdr, keepPath: bool, rp: Id, depth: nat, ifp: int, so: seq<Address>)
    requires Walking(nodes, rp0, h, keepPath, rp, depth, ifp, so) && (rp == 0 || depth > MAXDIGIS)
    ensures NoDangling(nodes) && (rp0 == 0 || rp0 in nodes) && Ax25Header.WellFormed(h)
    ensures ifp == ChainPort(nodes, rp0, 0, 0) && so == Additions(nodes, rp0, h, keepPath)
  {
    hide NoDangling;
  }

  lemma NextHop(nodes: Nodes, rp: Id)
    requires NoDangling(nodes) && rp in nodes
    ensures nodes[rp].digi == 0 || nodes[rp].digi in nodes
  {
  }

  lemma SplicedMore(p: seq<Address>, nd: int, so: seq<Address>, a: Address)
    requires 0 <= nd <= |p| && Copies(so) == so
    ensures var q := Spliced(p, nd, so);
            q[..nd] + [AddrCopy(a)] + Copies(q[nd..]) == Spliced(p, nd, [AddrCopy(a)] + so)
    ensures Copies([AddrCopy(a)] + so) == [AddrCopy(a)] + so
  {
    hide AddrCopy, Copies;
    var q, c, one := Spliced(p, nd, so), Copies(p[nd..]), [AddrCopy(a)];
    OneCopied(a);
    CopiesAppend(one, so);
    if so == [] {
      assert one + so == one;
    } else {
      assert q == p[..nd] + so + c && q[..nd] == p[..nd] && q[nd..] == so + c;
      CopiesAppend(so, c);
      CopiesAgain(p[nd..]);
      assert p[..nd] + one + (so + c) == p[..nd] + (one + so) + c;
    }
  }

  lemma OneCopied(a: Address)
    ensures Copies([AddrCopy(a)]) == [AddrCopy(a)]
  {
    hide AddrCopy;
    CopyIsEqual(a);
  }

  lemma TrimmedFits(st: Station, h: Hdr)
    requires |h.path| <= MAXDIGIS
    ensures Ax25Header.WellFormed(Trimmed(st, h))
  {
    hide AnswersTo, AddrCopy;
  }

  /** What axroute makes of a header that stands at its position. */
  function Completed(st: Station, nodes: Nodes, rp: Id, h: Hdr, keepPath: bool): Hdr
    requires NoDangling(nodes) && (rp == 0 || rp in nodes) && Ax25Header.WellFormed(h)
  {
    hide AddrCopy, Copies, Inserted, ChainPort, NoDangling, IsMine;
    PathIsKept(nodes, rp, h, keepPath);
    var ifp := OutPort(st, nodes, rp);
    var r := h.(path := RoutedPath(nodes, rp, h, keepPath));
    if ifp == 0 || keepPath then r else UnderPortCall(st, r, ifp)
  }

  /** axroute; rp is the entry of the address the frame is for next. */
  method Axroute(hdr: Ax25, table: RouteTable, keepPath: bool) returns (ifp: int, ghost rp: Id)
    requires table.Valid() && hdr.Valid() && (keepPath ==> Ax25Header.WellFormed(hdr.View()))
    requires hdr.digis as object != table.buckets
    modifies hdr, hdr.digis, table`nodes, table`nextId, table.buckets
    ensures hdr.Valid() && table.Valid() && table.nodes == old(table.nodes)
    ensures NoDangling(table.nodes)
    ensures var h := if keepPath then old(hdr.View()) else Trimmed(table.st, old(hdr.View()));
            && Ax25Header.WellFormed(h)
            && RouteFor(table.nodes, if h.nextdigi < |h.path| then h.path[h.nextdigi] else h.dest, rp)
            && ifp == OutPort(table.st, table.nodes, rp)
            && hdr.View() == Completed(table.st, table.nodes, rp, h, keepPath)
  {
    hide AddrCopy, Copies, AddrEq, BucketsHold, OnePerCall, PermanentClosed,
         Acyclic, NoDangling, AnswersTo, IsMine, Completed, RoutedPath;
    if !keepPath { Trim(table.st, hdr); TrimmedFits(table.st, old(hdr.View())); }
    ghost var h := hdr.View();
    var idest := if hdr.nextdigi < hdr.ndigis then hdr.digis[hdr.nextdigi] else hdr.dest;
    var rp0 := table.RoutePtr(idest, false);
    rp := rp0;
    ifp := Complete(hdr, table.st, table.nodes, rp0, keepPath);
  }

  /** axroute once the entry is looked up. */
  method Complete(hdr: Ax25, st: Station, nodes: Nodes, rp: Id, keepPath: bool) returns (ifp: int)
    requires hdr.Valid() && Ax25Header.WellFormed(hdr.View()) && NoDangling(nodes) && (rp == 0 || rp in nodes)
    modifies hdr`ndigis, hdr`source, hdr.digis
    ensures hdr.Valid() && ifp == OutPort(st, nodes, rp)
    ensures hdr.View() == Completed(st, nodes, rp, old(hdr.View()), keepPath)
  {
    hide AddrCopy, Copies, NoDangling, IsMine, Spliced, Inserted, ChainPort;
    ghost var h := hdr.View();
    var n0 := hdr.ndigis;
    var added;
    ifp, added := FollowChain(hdr, nodes, rp, keepPath);
    if ifp == 0 && added != 0 {
      Withdraw(hdr, n0, added, h, Additions(nodes, rp, h, keepPath));
    }
    PathIsKept(nodes, rp, h, keepPath);
    assert hdr.View() == h.(path := RoutedPath(nodes, rp, h, keepPath));
    if ifp == 0 { ifp := st.defaultIfp; }
    if ifp in st.ifaces && st.ifaces[ifp].forw != 0 { ifp := st.ifaces[ifp].forw; }
    if ifp != 0 && !keepPath { UsePortCall(hdr, st, ifp); }
  }

  /** What the walk added is taken out again. */
  method Withdraw(hdr: Ax25, n0: int, added: int, ghost h: Hdr, ghost ins: seq<Address>)
    requires hdr.Valid() && Ax25Header.WellFormed(h) && n0 == |h.path| && added == |ins| > 0
    requires hdr.View() == h.(path := Spliced(h.path, h.nextdigi, ins))
    modifies hdr`ndigis, hdr.digis
    ensures hdr.Valid() && hdr.View() == h.(path := h.path[..h.nextdigi] + Copies(h.path[h.nextdigi..]))
  {
    hide AddrCopy, Copies, Spliced;
    ghost var nd := h.nextdigi;
    ghost var p := hdr.digis[..hdr.ndigis];
    SplicedParts(h.path, nd, ins);
    CopiesAgain(h.path[nd..]);
    assert hdr.digis[..nd] == p[..nd] && hdr.digis[nd + added..hdr.ndigis] == p[nd + added..];
    MoveDown(hdr.digis, hdr.nextdigi + added, added, hdr.ndigis);
    hdr.ndigis := n0;
  }

  lemma SplicedParts(p: seq<Address>, nd: int, ins: seq<Address>)
    requires 0 <= nd <= |p| && ins != []
    ensures var q := Spliced(p, nd, ins);
            |q| == |p| + |ins| && q[..nd] == p[..nd] && q[nd + |ins|..] == Copies(p[nd..])
  {
    hide AddrCopy, Copies;
  }

  method UsePortCall(hdr: Ax25, st: Station, ifp: int)
    requires hdr.Valid() && Ax25Header.WellFormed(hdr.View())
    modifies hdr`source, hdr.digis
    ensures hdr.Valid() && hdr.View() == UnderPortCall(st, old(hdr.View()), ifp)
  {
    hide AddrCopy, IsMine;
    if hdr.nextdigi != 0 {
      if IsMine(st, hdr.digis[0]) {
        hdr.digis[0] := AddrCopy(Hwaddr(st, ifp));
      }
    } else {
      hdr.source := AddrCopy(Hwaddr(st, ifp));
    }
  }

  // ----- learning and replying -----

  function Reversed(p: seq<Address>): seq<Address> {
    if p == [] then [] else Reversed(p[1..]) + [p[0]]
  }

  /** None of the calls has an entry that learning may not change. */
  ghost predicate NonePermanent(nodes: Nodes, calls: seq<Address>) {
    forall n, c :: n in nodes && c in calls && AddrEq(nodes[n].target, c) ==> !nodes[n].perm
  }

  /** The port the last of the entries has once it was learned. */
  function LearnedPort(st: Station, r: Route, iface: int, now: int): int {
    if Pinned(st, r, iface, now) then r.ifp else iface
  }

  lemma LearnedHop(st: Station, before: Nodes, nodes: Nodes, calls: seq<Address>, ids: seq<Id>, iface: int,
      now: int, j: int)
    requires AddedFrom(st, before, nodes, calls, ids, 0, iface, false, now) && 0 <= j < |calls|
    requires NoDangling(nodes) && NonePermanent(before, calls)
    ensures ids[j] in nodes && ids[j] != 0 && AddrCopy(nodes[ids[j]].target) == AddrCopy(calls[j])
    ensures nodes[ids[j]].digi == NextOf(ids, j)
    ensures j + 1 == |calls| ==> nodes[ids[j]].ifp == LearnedPort(st, Was(before, ids[j], calls[j]), iface, now)
  {
    hide AddrCopy, AddrEq, Pinned;
    assert AddedOne(st, before, nodes, calls, ids, j, iface, false, now);
    AddrEqIsSameCopy(nodes[ids[j]].target, calls[j]);
    if ids[j] in before {
      UpdatedKeepsTarget(st, before[ids[j]], NextOf(ids, j), iface, false, now);
      assert calls[j] in calls && AddrEq(before[ids[j]].target, calls[j]) && !before[ids[j]].perm;
    }
  }

  lemma {:induction false} LearnedChain(st: Station, before: Nodes, nodes: Nodes, calls: seq<Address>,
      ids: seq<Id>, iface: int, now: int, j: nat)
    requires AddedFrom(st, before, nodes, calls, ids, 0, iface, false, now) && j < |calls| <= MAXDIGIS + 1
    requires NoDangling(nodes) && NonePermanent(before, calls)
    ensures ids[j] in nodes && Inserted(nodes, ids[j], j, MAXDIGIS - j) == Reversed(Copies(calls[j + 1..]))
    ensures forall ifp :: ChainPort(nodes, ids[j], j, ifp) ==
              LearnedPort(st, Was(before, ids[|ids| - 1], calls[|ids| - 1]), iface, now)
    decreases |calls| - j
  {
    hide AddrCopy, Pinned, NoDangling, AddedFrom, NonePermanent, Was;
    IdsMatch(st, before, nodes, calls, ids, iface, now);
    LearnedHop(st, before, nodes, calls, ids, iface, now, j);
    if j + 1 < |calls| {
      LearnedHop(st, before, nodes, calls, ids, iface, now, j + 1);
      LearnedChain(st, before, nodes, calls, ids, iface, now, j + 1);
      var c := Copies(calls[j + 1..]);
      assert c[0] == AddrCopy(calls[j + 1]) && c[1..] == Copies(calls[j + 2..]);
    }
  }

  lemma IdsMatch(st: Station, before: Nodes, nodes: Nodes, calls: seq<Address>, ids: seq<Id>, iface: int, now: int)
    requires AddedFrom(st, before, nodes, calls, ids, 0, iface, false, now)
    ensures |ids| == |calls|
  {
  }

  /** What a fresh header to the source becomes after learning. */
  lemma Reply(st: Station, before: Nodes, nodes: Nodes, calls: seq<Address>, ids: seq<Id>, iface: int,
      now: int, rp: Id, h: Hdr)
    requires AddedFrom(st, before, nodes, calls, ids, 0, iface, false, now) && 0 < |calls| <= MAXDIGIS + 1
    requires RouteGraph.WellFormed(nodes) && NonePermanent(before, calls) && iface != 0
    requires h.path == [] && h.nextdigi == 0 && RouteFor(nodes, calls[0], rp)
    ensures NoDangling(nodes) && |ids| == |calls|
    ensures Completed(st, nodes, rp, h, false).path == Reversed(Copies(calls[1..]))
    ensures OutPort(st, nodes, rp) ==
              Forwarded(st, LearnedPort(st, Was(before, ids[|ids| - 1], calls[|ids| - 1]), iface, now))
  {
    hide AddrCopy, AddrEq, NoDangling, OnePerCall, PermanentClosed,
         Acyclic, IsMine, Copies, Inserted, ChainPort, Reversed, Was;
    IdsMatch(st, before, nodes, calls, ids, iface, now);
    LearnedChain(st, before, nodes, calls, ids, iface, now, 0);
    assert AddedOne(st, before, nodes, calls, ids, 0, iface, false, now);
    SameCallSameEntry(nodes, rp, ids[0], calls[0]);
  }

  lemma LastWas(st: Station, before: Nodes, nodes: Nodes, calls: seq<Address>, ids: seq<Id>, iface: int, now: int)
    requires AddedFrom(st, before, nodes, calls, ids, 0, iface, false, now) && |calls| > 0
    ensures |ids| == |calls|
    ensures var w := Was(before, ids[|ids| - 1], calls[|ids| - 1]);
            w == NewRoute(calls[|calls| - 1]) || HasEntry(before, calls[|calls| - 1], w)
  {
    hide AddrEq, NewRoute;
    var k := |ids| - 1;
    assert AddedOne(st, before, nodes, calls, ids, k, iface, false, now);
    if ids[k] in before { UpdatedKeepsTarget(st, before[ids[k]], NextOf(ids, k), iface, false, now); }
  }

  ghost predicate HasEntry(nodes: Nodes, call: Address, r: Route) {
    exists n :: n in nodes && nodes[n] == r && AddrEq(r.target, call)
  }

  /** A frame is learned from, and a fresh header to its source is routed: the
      digipeaters it passed come back in reverse order, and the frame goes out
      on the port it came in on, unless the bridge pin or forw say otherwise.
      last is what the table held for the station that was heard directly. */
  method LearnThenReply(table: RouteTable, source: Address, path: seq<Address>, nextdigi: int, iface: int,
      now: int, own: Address)
    returns (hdr: Ax25, ifp: int, ghost last: Route)
    requires table.Valid() && 0 <= nextdigi <= |path| <= MAXDIGIS && iface != 0
    requires Learnable(table.st, [source] + path[..nextdigi]) && NonePermanent(table.nodes, [source] + path[..nextdigi])
    modifies table`nodes, table`nextId, table.buckets
    ensures table.Valid() && fresh(hdr) && hdr.Valid()
    ensures hdr.View().path == Reversed(Copies(path[..nextdigi]))
    ensures var heard := if nextdigi == 0 then source else path[nextdigi - 1];
            last == NewRoute(heard) || HasEntry(old(table.nodes), heard, last)
    ensures ifp == Forwarded(table.st, LearnedPort(table.st, last, iface, now))
  {
    hide AddrCopy, AddrEq, BucketsHold, RouteGraph.WellFormed, NoDangling, AnswersTo, IsMine, Pinned, Learnable,
         NonePermanent, AddedFrom, Completed, OutPort, Was, NewRoute, Reversed, Copies, Forwarded, LearnedPort;
    ghost var calls := [source] + path[..nextdigi];
    assert calls[1..] == path[..nextdigi];
    ghost var before := table.nodes;
    ghost var ids := table.Add(source, path, nextdigi, iface, false, now);
    ghost var nodes := table.nodes;
    LastWas(table.st, before, nodes, calls, ids, iface, now);
    last := Was(before, ids[|ids| - 1], calls[|ids| - 1]);
    hdr := new Ax25();
    hdr.dest := source;
    hdr.source := own;
    ghost var h := hdr.View();
    ghost var rp;
    ifp, rp := Axroute(hdr, table, false);
    Reply(table.st, before, nodes, calls, ids, iface, now, rp, Trimmed(table.st, h));
  }
}
