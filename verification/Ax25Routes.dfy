/** The AX.25 routing table of src/ax25.c: a hash table of routes that name each
    other as next hops. */
module Ax25Routes {
  import opened Ax25Address
  import opened RouteGraph

  const AXROUTESIZE := 499
  const AXROUTE_PIN := 300
  const AXROUTE_HOLDTIME := 0x7fff_ffff / 1000

  /** A port; forw and bridgegroup are 0 for none. */
  datatype Iface = Iface(ax25: bool, hwaddr: Address, bridgegroup: int, forw: int)

  /** What the rest of the node contributes: its ports, the calls it listens
      for, the multicast calls and the default port. */
  datatype Station = Station(ifaces: map<int, Iface>, listened: set<Address>, multicast: seq<Address>, defaultIfp: int)

  /** ismyax25addr */
  predicate IsMine(st: Station, call: Address) {
    exists i :: i in st.ifaces.Keys && st.ifaces[i].ax25 && AddrEq(st.ifaces[i].hwaddr, call)
  }

  /** valid_remote_call */
  predicate ValidRemote(st: Station, call: Address) {
    call[0] != 0 && !IsMine(st, call) && forall m :: m in st.multicast ==> !AddrEq(m, call)
  }

  function Group(st: Station, ifp: int): int {
    if ifp in st.ifaces then st.ifaces[ifp].bridgegroup else 0
  }

  /** The route was heard on the other port of a bridge a short while ago. */
  predicate Pinned(st: Station, r: Route, iface: int, now: int) {
    && r.ifp != 0 && r.ifp != iface
    && Group(st, r.ifp) != 0 && Group(st, r.ifp) == Group(st, iface)
    && now - r.iftime < AXROUTE_PIN
  }

  function NewRoute(call: Address): Route {
    Route(AddrCopy(call), 0, 0, false, false, 0, 0)
  }

  /** What axroute_add makes of the entry r when the next hop is `last`. */
  function Updated(st: Station, r: Route, last: Id, iface: int, perm: bool, now: int): Route {
    if !perm && r.perm then r.(time := now)
    else if last != 0 then r.(digi := last, ifp := 0, perm := perm, time := now)
    else if Pinned(st, r, iface, now) then r.(digi := 0, perm := perm, time := now)
    else r.(digi := 0, ifp := iface, iftime := now, perm := perm, time := now)
  }

  // ----- steps of axroute_add on the graph -----

  ghost function Permanent(nodes: Nodes): set<Id> {
    set n | n in nodes && nodes[n].perm
  }

  /** The entries a chain may run through that must not be met by the next one. */
  ghost function Trusted(nodes: Nodes, done: set<Id>, perm: bool): set<Id> {
    done + if perm then {} else Permanent(nodes)
  }

  lemma NewKeeps(nodes: Nodes, rp: Id, call: Address, last: Id, s: set<Id>, m: nat)
    requires WellFormed(nodes) && rp !in nodes && rp != 0
    requires forall n :: n in nodes ==> !AddrEq(nodes[n].target, call)
    requires EndsWithin(nodes, last, s, m)
    ensures WellFormed(nodes[rp := NewRoute(call)])
    ensures EndsWithin(nodes[rp := NewRoute(call)], last, s, m)
  {
    hide Ends, EndsWithin, AddrEq, AddrCopy;
    var nodes' := nodes[rp := NewRoute(call)];
    forall n | n in nodes
      ensures !AddrEq(nodes[n].target, NewRoute(call).target) && !AddrEq(NewRoute(call).target, nodes[n].target)
    {
      CopyDiffersToo(nodes[n].target, call);
    }
    NullEnds(nodes', {});
    RepointKeepsAcyclic(nodes, nodes', rp, {}, 0);
    WithinWider(nodes, nodes', last, s, s, m);
  }

  lemma NullEnds(nodes: Nodes, s: set<Id>)
    ensures EndsWithin(nodes, 0, s, 0)
  {
  }

  lemma StepKeeps(st: Station, nodes: Nodes, rp: Id, last: Id, iface: int, perm: bool, now: int, done: set<Id>,
      m: nat) returns (m': nat)
    requires WellFormed(nodes) && rp in nodes && rp !in done
    requires last == 0 || (last in nodes && (perm ==> nodes[last].perm))
    requires EndsWithin(nodes, last, Trusted(nodes, done, perm), m)
    ensures var nodes' := nodes[rp := Updated(st, nodes[rp], last, iface, perm, now)];
            && WellFormed(nodes') && EndsWithin(nodes', rp, Trusted(nodes', done + {rp}, perm), m')
            && (perm ==> nodes'[rp].perm)
  {
    hide Ends, EndsWithin, AddrEq, Pinned;
    var nodes' := nodes[rp := Updated(st, nodes[rp], last, iface, perm, now)];
    if !perm && nodes[rp].perm {
      var k: nat :| Ends(nodes, rp, k);
      m' := k;
      PermanentChain(nodes, rp, Permanent(nodes), k);
      WithinWider(nodes, nodes', rp, Permanent(nodes), Trusted(nodes', done + {rp}, perm), k);
      SameHopsAcyclic(nodes, nodes');
    } else {
      var s := Trusted(nodes, done, perm);
      WithinWider(nodes, nodes', last, s, s, m);
      RepointKeepsAcyclic(nodes, nodes', rp, s, m);
      m' := m + 1;
      StartWithin(nodes', rp, s + {rp}, last, s, m);
      WithinWider(nodes', nodes', rp, s + {rp}, Trusted(nodes', done + {rp}, perm), m + 1);
    }
  }

  lemma StartWithin(nodes: Nodes, rp: Id, s': set<Id>, last: Id, s: set<Id>, m: nat)
    requires rp in nodes && rp in s' && s <= s' && nodes[rp].digi == last && EndsWithin(nodes, last, s, m)
    ensures EndsWithin(nodes, rp, s', m + 1)
  {
    WithinWider(nodes, nodes, last, s, s', m);
  }

  lemma SameHopsAcyclic(nodes: Nodes, nodes': Nodes)
    requires Acyclic(nodes) && nodes'.Keys == nodes.Keys
    requires forall n :: n in nodes ==> nodes'[n].digi == nodes[n].digi
    ensures Acyclic(nodes')
  {
    forall z | z in nodes' ensures exists k: nat :: Ends(nodes', z, k) {
      var k: nat :| Ends(nodes, z, k);
      SameHopsEnd(nodes, nodes', z, k);
    }
  }

  lemma {:induction false} SameHopsEnd(nodes: Nodes, nodes': Nodes, z: Id, k: nat)
    requires nodes'.Keys == nodes.Keys
    requires forall n :: n in nodes ==> nodes'[n].digi == nodes[n].digi
    requires Ends(nodes, z, k)
    ensures Ends(nodes', z, k)
    decreases k
  {
    if z != 0 { SameHopsEnd(nodes, nodes', nodes[z].digi, k - 1); }
  }

  // ----- the hash table -----

  ghost predicate NoRepeats(l: seq<Id>) {
    forall i, j :: 0 <= i < j < |l| ==> l[i] != l[j]
  }

  function Bucket(call: Address): (h: int)
    ensures 0 <= h < AXROUTESIZE
  {
    Hash(call) % AXROUTESIZE
  }

  /** Every entry is listed once, in the bucket of its call. */
  ghost predicate BucketsHold(buckets: seq<seq<Id>>, nodes: Nodes) {
    && |buckets| == AXROUTESIZE
    && (forall h, i :: 0 <= h < AXROUTESIZE && 0 <= i < |buckets[h]| ==>
          buckets[h][i] in nodes && Bucket(nodes[buckets[h][i]].target) == h)
    && (forall n :: n in nodes ==> n in buckets[Bucket(nodes[n].target)])
    && (forall h :: 0 <= h < AXROUTESIZE ==> NoRepeats(buckets[h]))
  }

  lemma BucketsOfTargets(buckets: seq<seq<Id>>, nodes: Nodes, nodes': Nodes)
    requires BucketsHold(buckets, nodes) && nodes'.Keys == nodes.Keys
    requires forall n :: n in nodes ==> nodes'[n].target == nodes[n].target
    ensures BucketsHold(buckets, nodes')
  {
    hide Hash;
    forall n | n in nodes' ensures n in buckets[Bucket(nodes'[n].target)] {
      assert n in nodes;
    }
  }

  lemma BucketsGrow(buckets: seq<seq<Id>>, nodes: Nodes, rp: Id, r: Route)
    requires BucketsHold(buckets, nodes) && rp !in nodes
    ensures var h := Bucket(r.target);
            BucketsHold(buckets[h := [rp] + buckets[h]], nodes[rp := r])
  {
    hide Hash;
    var h := Bucket(r.target);
    var b := buckets[h := [rp] + buckets[h]];
    var nodes' := nodes[rp := r];
    forall n | n in nodes' ensures n in b[Bucket(nodes'[n].target)] {
      if n == rp { assert b[h][0] == rp; }
      else if Bucket(nodes[n].target) == h {
        var i :| 0 <= i < |buckets[h]| && buckets[h][i] == n;
        assert b[h][i + 1] == n;
      }
    }
  }

  lemma BucketsShrink(buckets: seq<seq<Id>>, nodes: Nodes, h: int, i: int)
    requires BucketsHold(buckets, nodes) && 0 <= h < AXROUTESIZE && 0 <= i < |buckets[h]|
    ensures BucketsHold(buckets[h := buckets[h][..i] + buckets[h][i + 1..]], nodes - {buckets[h][i]})
  {
    hide Bucket;
    var rp := buckets[h][i];
    var l := buckets[h][..i] + buckets[h][i + 1..];
    var b := buckets[h := l];
    assert forall j :: 0 <= j < |l| ==> l[j] == buckets[h][if j < i then j else j + 1];
    forall n | n in nodes && n != rp ensures n in b[Bucket(nodes[n].target)] {
      if Bucket(nodes[n].target) == h {
        var j :| 0 <= j < |buckets[h]| && buckets[h][j] == n;
        assert l[if j < i then j else j - 1] == n;
      }
    }
  }

  ghost predicate NoneFor(nodes: Nodes, call: Address) {
    forall n :: n in nodes ==> !AddrEq(nodes[n].target, call)
  }

  ghost predicate Listed(buckets: seq<seq<Id>>, n: Id) {
    exists h :: 0 <= h < |buckets| && n in buckets[h]
  }

  /** Entries found for the same call are the same entry. */
  lemma SameCallSameEntry(nodes: Nodes, a: Id, b: Id, call: Address)
    requires OnePerCall(nodes) && a in nodes && b in nodes
    requires AddrEq(nodes[a].target, call) && AddrEq(nodes[b].target, call)
    ensures a == b
  {
  }

  ghost function Was(nodes: Nodes, id: Id, call: Address): Route {
    if id in nodes then nodes[id] else NewRoute(call)
  }

  ghost predicate Distinct(calls: seq<Address>) {
    forall i, j :: 0 <= i < j < |calls| ==> !AddrEq(calls[j], calls[i])
  }

  /** The calls of a frame are fit for the table: of other stations, and no two the same. */
  ghost predicate Learnable(st: Station, calls: seq<Address>) {
    (forall c :: c in calls ==> ValidRemote(st, c)) && Distinct(calls)
  }

  /** ids[j] is the entry of calls[j], as Updated says, with the next one as next hop. */
  ghost predicate AddedOne(st: Station, before: Nodes, nodes: Nodes, calls: seq<Address>, ids: seq<Id>, j: int,
      iface: int, perm: bool, now: int)
    requires 0 <= j < |calls| == |ids|
  {
    && ids[j] in nodes && AddrEq(nodes[ids[j]].target, calls[j])
    && nodes[ids[j]] == Updated(st, Was(before, ids[j], calls[j]), NextOf(ids, j), iface, perm, now)
  }

  ghost function NextOf(ids: seq<Id>, j: int): Id
    requires 0 <= j < |ids|
  {
    if j + 1 == |ids| then 0 else ids[j + 1]
  }

  /** ids are the entries of the calls from index i on after a run of axroute_add:
      each made what Updated says of what it was, with the next one as next hop. */
  ghost predicate AddedFrom(st: Station, before: Nodes, nodes: Nodes, calls: seq<Address>, ids: seq<Id>,
      i: int, iface: int, perm: bool, now: int) {
    && |ids| == |calls| && 0 <= i <= |calls|
    && (forall j :: i <= j < |calls| ==> AddedOne(st, before, nodes, calls, ids, j, iface, perm, now))
    && (forall n :: n in before && n !in ids[i..] ==> n in nodes && nodes[n] == before[n])
    && (forall n :: n in nodes ==> n in before || n in ids[i..])
  }

  class RouteTable {
    const st: Station
    const buckets: array<seq<Id>>
    var nodes: Nodes
    var nextId: Id

    ghost predicate Valid()
      reads this, buckets
    {
      && BucketsHold(buckets[..], nodes)
      && WellFormed(nodes)
      && nextId > 0 && forall n :: n in nodes ==> n < nextId
    }

    /** The empty table. */
    constructor (st: Station)
      ensures Valid() && nodes == map[] && this.st == st && fresh(buckets)
    {
      this.st := st;
      buckets := new seq<Id>[AXROUTESIZE](_ => []);
      nodes := map[];
      nextId := 1;
    }

    /** ax_routeptr */
    method RoutePtr(call: Address, create: bool) returns (rp: Id)
      requires Valid()
      modifies this`nodes, this`nextId, buckets
      ensures Valid()
      ensures rp == 0 <==> !create && NoneFor(old(nodes), call)
      ensures rp != 0 ==> rp in nodes && AddrEq(nodes[rp].target, call)
      ensures rp == 0 || rp in old(nodes) ==> nodes == old(nodes)
      ensures rp != 0 && rp !in old(nodes) ==>
                create && NoneFor(old(nodes), call) && nodes == old(nodes)[rp := NewRoute(call)]
    {
      hide Hash, AddrEq, AddrCopy, OnePerCall, PermanentClosed, Acyclic;
      var h := Bucket(call);
      var i := 0;
      while i < |buckets[h]| && !AddrEq(nodes[buckets[h][i]].target, call)
        invariant 0 <= i <= |buckets[h]|
        invariant forall j :: 0 <= j < i ==> !AddrEq(nodes[buckets[h][j]].target, call)
      {
        i := i + 1;
      }
      if i < |buckets[h]| { return buckets[h][i]; }
      NoneInBucket(buckets[..], nodes, call);
      if !create { return 0; }
      rp := nextId;
      nextId := nextId + 1;
      CopyIsEqual(call);
      HashRespectsAddrEq(AddrCopy(call), call);
      NullEnds(nodes, {});
      NewKeeps(nodes, rp, call, 0, {}, 0);
      BucketsGrow(buckets[..], nodes, rp, NewRoute(call));
      nodes := nodes[rp := NewRoute(call)];
      ghost var b := buckets[..];
      buckets[h] := [rp] + buckets[h];
      assert buckets[..] == b[h := [rp] + b[h]];
    }

    /** The first half of axroute_add: the source and the digipeaters passed. */
    method CollectCalls(source: Address, path: seq<Address>, nextdigi: int) returns (ok: bool, calls: seq<Address>)
      requires 0 <= nextdigi <= |path|
      ensures ok <==> Learnable(st, [source] + path[..nextdigi])
      ensures ok ==> calls == [source] + path[..nextdigi]
    {
      hide AddrEq, IsMine;
      ghost var all := [source] + path[..nextdigi];
      calls := [];
      if !ValidRemote(st, source) {
        assert all[0] == source;
        return false, calls;
      }
      calls := [source];
      for i := 0 to nextdigi
        invariant calls == [source] + path[..i] && Learnable(st, calls)
        invariant calls == all[..i + 1]
      {
        var call := path[i];
        assert all[i + 1] == call;
        if !ValidRemote(st, call) { return false, calls; }
        for j := 0 to |calls|
          invariant forall k :: 0 <= k < j ==> !AddrEq(call, calls[k])
        {
          assert calls[j] == all[j];
          if AddrEq(call, calls[j]) { return false, calls; }
        }
        calls := calls + [call];
      }
      assert all == all[..nextdigi + 1];
      return true, calls;
    }

    /** axroute_add. ids are the entries of the calls, the source first. */
    method Add(source: Address, path: seq<Address>, nextdigi: int, iface: int, perm: bool,
        now: int) returns (ghost ids: seq<Id>)
      requires Valid() && 0 <= nextdigi <= |path|
      modifies this`nodes, this`nextId, buckets
      ensures Valid()
      ensures !Learnable(st, [source] + path[..nextdigi]) ==> nodes == old(nodes)
      ensures Learnable(st, [source] + path[..nextdigi]) ==>
                AddedFrom(st, old(nodes), nodes, [source] + path[..nextdigi], ids, 0, iface, perm, now)
    {
      hide WellFormed, BucketsHold, AddrEq, Learnable, AddedFrom, EndsWithin, Trusted;
      ids := [];
      var ok, calls := CollectCalls(source, path, nextdigi);
      if !ok { return; }
      ids := AddCalls(calls, iface, perm, now);
    }

    /** The second half: from the last digipeater back to the source. */
    method AddCalls(calls: seq<Address>, iface: int, perm: bool, now: int) returns (ghost ids: seq<Id>)
      requires Valid() && calls != [] && Learnable(st, calls)
      modifies this`nodes, this`nextId, buckets
      ensures Valid() && AddedFrom(st, old(nodes), nodes, calls, ids, 0, iface, perm, now)
    {
      hide WellFormed, BucketsHold, AddrEq, AddedFrom, EndsWithin, Trusted, Updated, NewRoute;
      var lastnode: Id := 0;
      ids := seq(|calls|, _ => 0);
      ghost var m := 0;
      NothingAdded(st, nodes, calls, ids, iface, perm, now);
      NullEnds(nodes, Trusted(nodes, {}, perm));
      assert Entries(ids[|calls|..]) == {};
      var i := |calls|;
      while i > 0
        invariant 0 <= i <= |calls| && Valid() && |ids| == |calls|
        invariant AddedFrom(st, old(nodes), nodes, calls, ids, i, iface, perm, now)
        invariant lastnode == if i == |calls| then 0 else ids[i]
        invariant lastnode == 0 || (lastnode in nodes && (perm ==> nodes[lastnode].perm))
        invariant EndsWithin(nodes, lastnode, Trusted(nodes, Entries(ids[i..]), perm), m)
      {
        i := i - 1;
        ghost var n0 := nodes;
        var rp := RoutePtr(calls[i], true);
        Arrived(st, old(nodes), n0, nodes, calls, ids, i + 1, iface, perm, now, rp, lastnode, m);
        m := StepKeeps(st, nodes, rp, lastnode, iface, perm, now, Entries(ids[i + 1..]), m);
        OneMore(st, old(nodes), n0, nodes, calls, ids, i, iface, perm, now, rp, lastnode);
        BucketsOfTargetsAfter(st, buckets[..], nodes, rp, lastnode, iface, perm, now);
        nodes := nodes[rp := Updated(st, nodes[rp], lastnode, iface, perm, now)];
        ids := ids[i := rp];
        lastnode := rp;
      }
    }

    /** axroute_unref: whatever listed entry points at rp points at `instead`. */
    method Unref(rp: Id, instead: Id)
      requires buckets.Length == AXROUTESIZE
      requires forall h, j :: 0 <= h < AXROUTESIZE && 0 <= j < |buckets[h]| ==> buckets[h][j] in nodes
      modifies this`nodes
      ensures nodes.Keys == old(nodes).Keys
      ensures forall n :: n in nodes ==>
                nodes[n] == if Listed(buckets[..], n) then Redirected(old(nodes)[n], rp, instead) else old(nodes)[n]
    {
      ghost var seen: set<Id> := {};
      for i := 0 to AXROUTESIZE
        invariant RedirectedIn(old(nodes), nodes, seen, rp, instead)
        invariant forall n :: n in seen <==> exists h :: 0 <= h < i && n in buckets[h]
      {
        ghost var seen0 := seen;
        for j := 0 to |buckets[i]|
          invariant RedirectedIn(old(nodes), nodes, seen, rp, instead)
          invariant forall n :: n in seen <==> n in seen0 || n in buckets[i][..j]
        {
          var q := buckets[i][j];
          if nodes[q].digi == rp {
            nodes := nodes[q := nodes[q].(digi := instead)];
          }
          seen := seen + {q};
        }
        assert buckets[i][..|buckets[i]|] == buckets[i];
      }
      forall n ensures n in seen <==> Listed(buckets[..], n) {
        assert forall h :: 0 <= h < AXROUTESIZE ==> buckets[..][h] == buckets[h];
      }
    }

    /** axroute_del: 1 and the entry is gone, or 0 and nothing has changed. With
        digipeaters given, only if they are the first hops of its chain. */
    method Del(call: Address, path: seq<Address>) returns (r: int, ghost rp: Id)
      requires Valid()
      modifies this`nodes, buckets
      ensures Valid()
      ensures r == 1 || (r == 0 && nodes == old(nodes))
      ensures r == 1 ==>
                && rp in old(nodes) && AddrEq(old(nodes)[rp].target, call)
                     && HopsAre(old(nodes), old(nodes)[rp].digi, path)
                && nodes == Without(old(nodes), rp, Hop(old(nodes), rp, |path| + 1))
      ensures r == 0 ==>
                NoneFor(nodes, call)
                || (rp in nodes && AddrEq(nodes[rp].target, call) && !HopsAre(nodes, nodes[rp].digi, path))
    {
      hide Hash, AddrEq, WellFormed, BucketsHold, Without;
      var h := Bucket(call);
      BucketFacts(buckets[..], nodes);
      var i := 0;
      while i < |buckets[h]| && !AddrEq(nodes[buckets[h][i]].target, call)
        invariant 0 <= i <= |buckets[h]|
        invariant forall j :: 0 <= j < i ==> !AddrEq(nodes[buckets[h][j]].target, call)
      {
        i := i + 1;
      }
      if i == |buckets[h]| {
        NoneInBucket(buckets[..], nodes, call);
        return 0, 0;
      }
      rp := buckets[h][i];
      var p := buckets[h][i];
      GraphFacts(nodes);
      var digi := nodes[p].digi;
      for k := 0 to |path|
        invariant nodes == old(nodes) && buckets[..] == old(buckets[..])
        invariant digi == Hop(nodes, p, k + 1) && (digi == 0 || digi in nodes)
        invariant HopsAre(nodes, nodes[p].digi, path) <==> HopsAre(nodes, digi, path[k..])
      {
        HopInside(nodes, p, k + 1);
        if digi == 0 || !AddrEq(nodes[digi].target, path[k]) { return 0, rp; }
        digi := nodes[digi].digi;
        assert path[k..][1..] == path[k + 1..];
      }
      DelStep(buckets[..], nodes, p, |path| + 1, h, i);
      nodes := nodes[p := nodes[p].(digi := digi)];
      ghost var b := buckets[..];
      buckets[h] := buckets[h][..i] + buckets[h][i + 1..];
      assert buckets[..] == b[h := b[h][..i] + b[h][i + 1..]];
      assert forall x, j :: 0 <= x < AXROUTESIZE && 0 <= j < |buckets[x]| ==> buckets[x][j] == buckets[..][x][j];
      Unref(p, nodes[p].digi);
      assert nodes - {p} == Without(old(nodes), p, digi) by { AfterUnref(old(nodes), nodes, buckets[..], p, digi); }
      nodes := nodes - {p};
      r := 1;
    }

    /** dojumpstart: the mark that a service is to start with the link. It may make
        an entry, and it keeps one from going by age. */
    method Jumpstart(call: Address, on: bool) returns (ghost rp: Id)
      requires Valid()
      modifies this`nodes, this`nextId, buckets
      ensures Valid()
      ensures rp != 0 && rp in nodes && AddrEq(nodes[rp].target, call)
      ensures rp in old(nodes) || NoneFor(old(nodes), call)
      ensures nodes == old(nodes)[rp := Was(old(nodes), rp, call).(jumpstart := on)]
      ensures rp !in old(nodes) ==> nodes[rp] == Route(AddrCopy(call), 0, 0, false, on, 0, 0)
    {
      hide Hash, AddrEq, AddrCopy, WellFormed, BucketsHold;
      var axr := RoutePtr(call, true);
      rp := axr;
      FlagKeeps(buckets[..], nodes, axr, on);
      nodes := nodes[axr := nodes[axr].(jumpstart := on)];
    }

    /** What the aging pass of axroute_write does to an entry: it goes if it is
        neither permanent nor marked and was not used for AXROUTE_HOLDTIME. */
    method Expire(h: int, i: int, now: int) returns (gone: bool)
      requires Valid() && 0 <= h < AXROUTESIZE && 0 <= i < |buckets[h]|
      modifies this`nodes, buckets
      ensures Valid()
      ensures var rp := old(buckets[h][i]);
              && rp in old(nodes)
              && (gone <==>
                   !old(nodes)[rp].perm && !old(nodes)[rp].jumpstart && old(nodes)[rp].time + 2147483 < now)
              && nodes == if gone then Without(old(nodes), rp, 0) else old(nodes)
    {
      hide Hash, AddrEq, WellFormed, BucketsHold, Without;
      BucketFacts(buckets[..], nodes);
      assert forall x, j :: 0 <= x < AXROUTESIZE && 0 <= j < |buckets[x]| ==> buckets[x][j] == buckets[..][x][j];
      var rp := buckets[h][i];
      if nodes[rp].perm || nodes[rp].jumpstart || nodes[rp].time + AXROUTE_HOLDTIME >= now { return false; }
      ExpireStep(buckets[..], nodes, rp, h, i);
      Unref(rp, 0);
      assert nodes - {rp} == Without(old(nodes), rp, 0) by { AfterUnrefAll(old(nodes), nodes, rp, 0); }
      ghost var b := buckets[..];
      buckets[h] := buckets[h][..i] + buckets[h][i + 1..];
      assert buckets[..] == b[h := b[h][..i] + b[h][i + 1..]];
      nodes := nodes - {rp};
      gone := true;
    }
  }

  /** The entries in `seen` were redirected, the others not. */
  ghost predicate RedirectedIn(before: Nodes, nodes: Nodes, seen: set<Id>, rp: Id, instead: Id) {
    && nodes.Keys == before.Keys
    && forall n :: n in nodes ==> nodes[n] == if n in seen then Redirected(before[n], rp, instead) else before[n]
  }

  /** The chain from x starts with entries of the given calls. */
  ghost predicate HopsAre(nodes: Nodes, x: Id, path: seq<Address>)
    decreases |path|
  {
    path == [] || (x in nodes && AddrEq(nodes[x].target, path[0]) && HopsAre(nodes, nodes[x].digi, path[1..]))
  }

  lemma BucketFacts(buckets: seq<seq<Id>>, nodes: Nodes)
    requires BucketsHold(buckets, nodes)
    ensures |buckets| == AXROUTESIZE
    ensures forall h, i :: 0 <= h < AXROUTESIZE && 0 <= i < |buckets[h]| ==> buckets[h][i] in nodes
  {
  }

  lemma GraphFacts(nodes: Nodes)
    requires WellFormed(nodes)
    ensures NoDangling(nodes)
  {
  }

  lemma DelStep(buckets: seq<seq<Id>>, nodes: Nodes, p: Id, d: nat, h: int, i: int)
    requires BucketsHold(buckets, nodes) && WellFormed(nodes) && p in nodes && d > 0
    requires 0 <= h < AXROUTESIZE && 0 <= i < |buckets[h]| && buckets[h][i] == p
    ensures WellFormed(Without(nodes, p, Hop(nodes, p, d)))
    ensures var b := buckets[h := buckets[h][..i] + buckets[h][i + 1..]];
            && BucketsHold(b, Without(nodes, p, Hop(nodes, p, d)))
            && !Listed(b, p) && (forall n :: n in nodes && n != p ==> Listed(b, n))
            && forall x, j :: 0 <= x < AXROUTESIZE && 0 <= j < |b[x]| ==> b[x][j] in nodes
  {
    hide WellFormed, Hash;
    WithoutKeepsWellFormed(nodes, p, d);
    BucketsShrink(buckets, nodes, h, i);
    var b := buckets[h := buckets[h][..i] + buckets[h][i + 1..]];
    var nodes' := Without(nodes, p, Hop(nodes, p, d));
    assert nodes'.Keys == (nodes - {p}).Keys;
    BucketsOfTargets(b, nodes - {p}, nodes');
    forall n | n in nodes && n != p ensures Listed(b, n) {
      assert n in nodes - {p};
    }
    forall x | 0 <= x < |b| ensures p !in b[x] {
      forall j | 0 <= j < |b[x]| ensures b[x][j] != p {
        assert b[x][j] in nodes - {p};
      }
    }
  }

  lemma FlagKeeps(buckets: seq<seq<Id>>, nodes: Nodes, rp: Id, on: bool)
    requires BucketsHold(buckets, nodes) && WellFormed(nodes) && rp in nodes
    ensures var nodes' := nodes[rp := nodes[rp].(jumpstart := on)]; BucketsHold(buckets, nodes') && WellFormed(nodes')
  {
    hide Hash, AddrEq, Ends, BucketsHold;
    var nodes' := nodes[rp := nodes[rp].(jumpstart := on)];
    SameHopsAcyclic(nodes, nodes');
    BucketsOfTargets(buckets, nodes, nodes');
  }

  lemma ExpireStep(buckets: seq<seq<Id>>, nodes: Nodes, rp: Id, h: int, i: int)
    requires BucketsHold(buckets, nodes) && WellFormed(nodes) && rp in nodes
    requires 0 <= h < AXROUTESIZE && 0 <= i < |buckets[h]| && buckets[h][i] == rp
    ensures WellFormed(Without(nodes, rp, 0))
    ensures BucketsHold(buckets[h := buckets[h][..i] + buckets[h][i + 1..]], Without(nodes, rp, 0))
    ensures forall n :: n in nodes ==> Listed(buckets, n)
  {
    hide WellFormed, Hash;
    CutKeepsWellFormed(nodes, rp);
    BucketsShrink(buckets, nodes, h, i);
    assert Without(nodes, rp, 0).Keys == (nodes - {rp}).Keys;
    BucketsOfTargets(buckets[h := buckets[h][..i] + buckets[h][i + 1..]], nodes - {rp}, Without(nodes, rp, 0));
  }

  lemma AfterUnref(before: Nodes, nodes: Nodes, buckets: seq<seq<Id>>, p: Id, instead: Id)
    requires p in before && nodes.Keys == before.Keys && !Listed(buckets, p)
    requires forall n :: n in before && n != p ==> Listed(buckets, n)
    requires var b1 := before[p := before[p].(digi := instead)];
             forall n :: n in nodes ==> nodes[n] == if Listed(buckets, n) then Redirected(b1[n], p, instead) else b1[n]
    ensures nodes - {p} == Without(before, p, instead)
  {
    hide Listed;
  }

  lemma AfterUnrefAll(before: Nodes, nodes: Nodes, p: Id, instead: Id)
    requires nodes.Keys == before.Keys
    requires forall n :: n in nodes ==> nodes[n] == Redirected(before[n], p, instead)
    ensures nodes - {p} == Without(before, p, instead)
  {
  }

  ghost function Entries(ids: seq<Id>): set<Id> {
    set x | x in ids
  }

  lemma NoneInBucket(buckets: seq<seq<Id>>, nodes: Nodes, call: Address)
    requires BucketsHold(buckets, nodes)
    requires forall j :: 0 <= j < |buckets[Bucket(call)]| ==> !AddrEq(nodes[buckets[Bucket(call)][j]].target, call)
    ensures NoneFor(nodes, call)
  {
    hide Hash, AddrEq;
    var h := Bucket(call);
    forall n | n in nodes ensures !AddrEq(nodes[n].target, call) {
      if Bucket(nodes[n].target) == h {
        var j :| 0 <= j < |buckets[h]| && buckets[h][j] == n;
      } else {
        OtherBucket(nodes[n].target, call);
      }
    }
  }

  lemma OtherBucket(a: Address, b: Address)
    requires Bucket(a) != Bucket(b)
    ensures !AddrEq(a, b)
  {
    hide Hash, AddrEq;
    if AddrEq(a, b) { HashRespectsAddrEq(a, b); }
  }

  lemma NothingAdded(st: Station, nodes: Nodes, calls: seq<Address>, ids: seq<Id>, iface: int, perm: bool, now: int)
    requires |ids| == |calls|
    ensures AddedFrom(st, nodes, nodes, calls, ids, |calls|, iface, perm, now)
  {
  }

  /** What holds once ax_routeptr has found or made the next entry. */
  lemma Arrived(st: Station, before: Nodes, n0: Nodes, nodes: Nodes, calls: seq<Address>, ids: seq<Id>, i: int,
      iface: int, perm: bool, now: int, rp: Id, last: Id, m: nat)
    requires AddedFrom(st, before, n0, calls, ids, i, iface, perm, now) && Distinct(calls) && 0 < i
    requires WellFormed(n0)
    requires rp != 0 && rp in nodes && AddrEq(nodes[rp].target, calls[i - 1])
    requires rp in n0 ==> nodes == n0
    requires rp !in n0 ==> NoneFor(n0, calls[i - 1]) && nodes == n0[rp := NewRoute(calls[i - 1])]
    requires last == 0 || (last in n0 && (perm ==> n0[last].perm))
    requires EndsWithin(n0, last, Trusted(n0, Entries(ids[i..]), perm), m)
    ensures WellFormed(nodes) && rp !in Entries(ids[i..])
    ensures last == 0 || (last in nodes && (perm ==> nodes[last].perm))
    ensures EndsWithin(nodes, last, Trusted(nodes, Entries(ids[i..]), perm), m)
    ensures nodes[rp] == Was(before, rp, calls[i - 1])
  {
    hide AddrEq, EndsWithin, AddrCopy, Updated, WellFormed;
    forall j | i <= j < |calls| ensures ids[j] != rp {
      assert AddedOne(st, before, n0, calls, ids, j, iface, perm, now);
      if ids[j] == rp {
        AddrEqSymmetric(nodes[rp].target, calls[j]);
        AddrEqTransitive(calls[j], nodes[rp].target, calls[i - 1]);
      }
    }
    var s := Trusted(n0, Entries(ids[i..]), perm);
    if rp !in n0 {
      NewKeeps(n0, rp, calls[i - 1], last, s, m);
      assert Permanent(nodes) == Permanent(n0);
    }
  }

  lemma UpdatedKeepsTarget(st: Station, r: Route, last: Id, iface: int, perm: bool, now: int)
    ensures Updated(st, r, last, iface, perm, now).target == r.target
  {
  }

  lemma OneMore(st: Station, before: Nodes, n0: Nodes, nodes: Nodes, calls: seq<Address>, ids: seq<Id>, i: int,
      iface: int, perm: bool, now: int, rp: Id, last: Id)
    requires 0 <= i < |calls| && AddedFrom(st, before, n0, calls, ids, i + 1, iface, perm, now)
    requires rp in nodes && rp !in Entries(ids[i + 1..]) && AddrEq(nodes[rp].target, calls[i])
    requires nodes == n0 || (rp !in n0 && nodes == n0[rp := NewRoute(calls[i])])
    requires nodes[rp] == Was(before, rp, calls[i])
    requires last == if i + 1 == |calls| then 0 else ids[i + 1]
    ensures Entries(ids[i := rp][i..]) == Entries(ids[i + 1..]) + {rp}
    ensures AddedFrom(st, before, nodes[rp := Updated(st, nodes[rp], last, iface, perm, now)],
              calls, ids[i := rp], i, iface, perm, now)
  {
    hide AddrEq, NewRoute, Updated;
    UpdatedKeepsTarget(st, nodes[rp], last, iface, perm, now);
    var ids' := ids[i := rp];
    var nodes' := nodes[rp := Updated(st, nodes[rp], last, iface, perm, now)];
    assert ids'[i..] == [rp] + ids[i + 1..];
    forall j | i <= j < |calls| ensures AddedOne(st, before, nodes', calls, ids', j, iface, perm, now) {
      if j > i {
        assert AddedOne(st, before, n0, calls, ids, j, iface, perm, now);
        assert ids[j] in Entries(ids[i + 1..]) by { assert ids[i + 1..][j - i - 1] == ids[j]; }
      }
    }
    var tail := ids[i + 1..];
    forall n | n in before && n !in ids'[i..] ensures n in nodes' && nodes'[n] == before[n] {
      assert n != rp by { assert ids'[i..][0] == rp; }
      assert n !in tail by { assert forall k :: 0 <= k < |tail| ==> ids'[i..][k + 1] == tail[k]; }
    }
    forall n | n in nodes' ensures n in before || n in ids'[i..] {
      if n == rp {
        assert ids'[i..][0] == rp;
      } else if n in tail {
        var k :| 0 <= k < |tail| && tail[k] == n;
        assert ids'[i..][k + 1] == n;
      }
    }
  }

  lemma BucketsOfTargetsAfter(st: Station, buckets: seq<seq<Id>>, nodes: Nodes, rp: Id, last: Id, iface: int,
      perm: bool, now: int)
    requires BucketsHold(buckets, nodes) && rp in nodes
    ensures BucketsHold(buckets, nodes[rp := Updated(st, nodes[rp], last, iface, perm, now)])
    ensures nodes[rp := Updated(st, nodes[rp], last, iface, perm, now)].Keys == nodes.Keys
  {
    hide Bucket;
    BucketsOfTargets(buckets, nodes, nodes[rp := Updated(st, nodes[rp], last, iface, perm, now)]);
  }

  // ----- what an addition means for an entry -----

  /** A short while ago the station was heard on another port of the same bridge. */
  ghost predicate HeardAcrossBridge(st: Station, r: Route, iface: int, now: int) {
    && r.ifp != 0 && r.ifp != iface && r.ifp in st.ifaces && iface in st.ifaces
    && st.ifaces[r.ifp].bridgegroup != 0 && st.ifaces[r.ifp].bridgegroup == st.ifaces[iface].bridgegroup
    && now - r.iftime < 300
  }

  /** A frame that is learned from leaves every permanent entry as it is, but for the
      time of the last use. */
  lemma PermanentLeftAlone(st: Station, before: Nodes, nodes: Nodes, calls: seq<Address>, ids: seq<Id>,
      iface: int, now: int, n: Id)
    requires AddedFrom(st, before, nodes, calls, ids, 0, iface, false, now) && n in before && before[n].perm
    ensures n in nodes && nodes[n] == before[n].(time := if n in ids then now else before[n].time)
  {
    hide AddrEq, Pinned, NewRoute;
    assert ids[0..] == ids;
    if n in ids {
      var j :| 0 <= j < |ids| && ids[j] == n;
      assert AddedOne(st, before, nodes, calls, ids, j, iface, false, now);
    }
  }

  /** The port a station that was heard directly is reached over from now on. */
  ghost predicate OverPort(st: Station, r: Route, r': Route, iface: int, now: int) {
    r'.digi == 0 && if HeardAcrossBridge(st, r, iface, now) then r'.ifp == r.ifp && r'.iftime == r.iftime
                    else r'.ifp == iface && r'.iftime == now
  }

  /** Whoever was heard through others is reached through the next of them, which
      knows the port; the last one was heard itself. Learning makes nothing permanent,
      an addition by hand makes every entry so. */
  lemma AddedEntry(st: Station, before: Nodes, nodes: Nodes, calls: seq<Address>, ids: seq<Id>,
      iface: int, perm: bool, now: int, j: nat)
    requires AddedFrom(st, before, nodes, calls, ids, 0, iface, perm, now) && j < |calls| && NoDangling(nodes)
    ensures |ids| == |calls| && ids[j] in nodes && AddrEq(nodes[ids[j]].target, calls[j])
    ensures var r' := nodes[ids[j]];
            var r := if ids[j] in before then before[ids[j]] else Route(AddrCopy(calls[j]), 0, 0, false, false, 0, 0);
            && r'.target == r.target && r'.jumpstart == r.jumpstart && r'.time == now && r'.perm == (r.perm || perm)
            && (perm || !r.perm ==>
                  if j + 1 == |calls| then OverPort(st, r, r', iface, now)
                  else r'.digi == ids[j + 1] && r'.ifp == 0 && r'.iftime == r.iftime)
  {
    hide AddrEq, AddrCopy;
    assert AddedOne(st, before, nodes, calls, ids, j, iface, perm, now);
    if j + 1 < |calls| { assert AddedOne(st, before, nodes, calls, ids, j + 1, iface, perm, now); }
  }

  /** A frame is learned from exactly if no station on its way is this node, everyone,
      or nobody, and none is on it twice. */
  lemma LearnableIff(st: Station, calls: seq<Address>)
    ensures Learnable(st, calls) <==>
              && (forall c: Address :: c in calls ==> c[0] != 0)
              && (forall c: Address, i :: c in calls && i in st.ifaces && st.ifaces[i].ax25 ==>
                    AddrCopy(c) != AddrCopy(st.ifaces[i].hwaddr))
              && (forall c: Address, m :: c in calls && m in st.multicast ==> AddrCopy(c) != AddrCopy(m))
              && (forall i, j :: 0 <= i < j < |calls| ==> AddrCopy(calls[i]) != AddrCopy(calls[j]))
  {
    hide AddrEq, AddrCopy;
    forall a: Address, b: Address ensures AddrEq(a, b) <==> AddrCopy(a) == AddrCopy(b) { AddrEqIsSameCopy(a, b); }
    if Learnable(st, calls) {
      forall c, i | c in calls && i in st.ifaces && st.ifaces[i].ax25
        ensures AddrCopy(c) != AddrCopy(st.ifaces[i].hwaddr)
      {
        assert ValidRemote(st, c) && i in st.ifaces.Keys;
      }
    }
  }

  /** A new entry is for another station: not for a call of a port, not for a call that
      means everyone, and not for none. */
  lemma NewEntryIsRemote(st: Station, before: Nodes, nodes: Nodes, calls: seq<Address>, ids: seq<Id>,
      iface: int, perm: bool, now: int, n: Id)
    requires AddedFrom(st, before, nodes, calls, ids, 0, iface, perm, now) && Learnable(st, calls)
    requires n in nodes && n !in before && NoDangling(nodes)
    ensures nodes[n].target[0] != 0
    ensures forall i :: i in st.ifaces && st.ifaces[i].ax25 ==> !AddrEq(st.ifaces[i].hwaddr, nodes[n].target)
    ensures forall m :: m in st.multicast ==> !AddrEq(m, nodes[n].target)
  {
    hide AddrEq, AddrCopy;
    assert ids[0..] == ids;
    var j :| 0 <= j < |ids| && ids[j] == n;
    AddedEntry(st, before, nodes, calls, ids, iface, perm, now, j);
    var c := calls[j];
    assert c in calls && ValidRemote(st, c) && nodes[n].target == AddrCopy(c);
    assert AddrCopy(c)[0] == c[0] by { FirstLetter(c); }
    forall i | i in st.ifaces && st.ifaces[i].ax25 ensures !AddrEq(st.ifaces[i].hwaddr, AddrCopy(c)) {
      assert i in st.ifaces.Keys && !AddrEq(st.ifaces[i].hwaddr, c);
      CopyDiffersToo(st.ifaces[i].hwaddr, c);
    }
    forall m | m in st.multicast ensures !AddrEq(m, AddrCopy(c)) { CopyDiffersToo(m, c); }
  }

  lemma FirstLetter(a: Address)
    ensures AddrCopy(a)[0] == a[0]
  {
  }
}
