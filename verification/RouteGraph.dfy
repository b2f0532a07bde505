/** The AX.25 routing table as a graph: every entry names the entry of the next
    hop towards its target (the digi pointer of struct ax_route, src/ax25.h). */
module RouteGraph {
  import opened Ax25Address

  /** A pointer to a route; 0 is null. */
  type Id = int

  datatype Route = Route(target: Address, digi: Id, ifp: int, perm: bool, jumpstart: bool, time: int, iftime: int)

  /** The routes that are allocated. A pointer outside this map dangles. */
  type Nodes = map<Id, Route>

  ghost predicate NoDangling(nodes: Nodes) {
    0 !in nodes && forall n :: n in nodes ==> nodes[n].digi == 0 || nodes[n].digi in nodes
  }

  ghost predicate OnePerCall(nodes: Nodes) {
    forall a, b :: a in nodes && b in nodes && a != b ==> !AddrEq(nodes[a].target, nodes[b].target)
  }

  /** The next hop of a permanent route is permanent. */
  ghost predicate PermanentClosed(nodes: Nodes) {
    forall n :: n in nodes && nodes[n].perm && nodes[n].digi in nodes ==> nodes[nodes[n].digi].perm
  }

  /** The chain from x reaches null within k steps. */
  ghost predicate Ends(nodes: Nodes, x: Id, k: nat)
    decreases k
  {
    x == 0 || (k > 0 && x in nodes && Ends(nodes, nodes[x].digi, k - 1))
  }

  ghost predicate Acyclic(nodes: Nodes) {
    forall n :: n in nodes ==> exists k: nat :: Ends(nodes, n, k)
  }

  ghost predicate WellFormed(nodes: Nodes) {
    NoDangling(nodes) && OnePerCall(nodes) && PermanentClosed(nodes) && Acyclic(nodes)
  }

  lemma {:induction false} EndsLater(nodes: Nodes, x: Id, k: nat, j: nat)
    requires Ends(nodes, x, k) && k <= j
    ensures Ends(nodes, x, j)
    decreases k
  {
    if x != 0 { EndsLater(nodes, nodes[x].digi, k - 1, j - 1); }
  }

  /** The j-th hop of the chain from x; null from its end on. */
  ghost function Hop(nodes: Nodes, x: Id, j: nat): Id
    decreases j
  {
    if j == 0 || x !in nodes then x else Hop(nodes, nodes[x].digi, j - 1)
  }

  lemma {:induction false} HopInside(nodes: Nodes, x: Id, j: nat)
    requires NoDangling(nodes) && (x == 0 || x in nodes)
    ensures Hop(nodes, x, j) == 0 || Hop(nodes, x, j) in nodes
    ensures Hop(nodes, x, j) in nodes ==> Hop(nodes, x, j + 1) == nodes[Hop(nodes, x, j)].digi
    ensures Hop(nodes, x, j) == 0 ==> Hop(nodes, x, j + 1) == 0
    decreases j
  {
    if j > 0 && x in nodes { HopInside(nodes, nodes[x].digi, j - 1); }
  }

  /** The number of entries on the chain from x. */
  ghost function Length(nodes: Nodes, x: Id, k: nat): (n: nat)
    requires Ends(nodes, x, k)
    ensures n <= k && (n == 0 <==> x == 0)
    decreases k
  {
    if x == 0 then 0 else 1 + Length(nodes, nodes[x].digi, k - 1)
  }

  lemma {:induction false} HopShortens(nodes: Nodes, x: Id, k: nat, j: nat)
    requires Ends(nodes, x, k) && NoDangling(nodes)
    ensures Ends(nodes, Hop(nodes, x, j), k)
    ensures Length(nodes, Hop(nodes, x, j), k) == if j < Length(nodes, x, k) then Length(nodes, x, k) - j else 0
    ensures j > 0 && x != 0 ==> Ends(nodes, Hop(nodes, x, j), k - 1)
    decreases j
  {
    if x != 0 && j > 0 {
      HopShortens(nodes, nodes[x].digi, k - 1, j - 1);
      EndsLater(nodes, Hop(nodes, x, j), k - 1, k);
      LengthAnyBound(nodes, Hop(nodes, x, j), k - 1, k);
    }
  }

  lemma {:induction false} LengthAnyBound(nodes: Nodes, x: Id, k: nat, j: nat)
    requires Ends(nodes, x, k) && Ends(nodes, x, j)
    ensures Length(nodes, x, k) == Length(nodes, x, j)
    decreases k
  {
    if x != 0 { LengthAnyBound(nodes, nodes[x].digi, k - 1, j - 1); }
  }

  // ----- pointing an entry somewhere else -----

  /** The chain from y reaches null within m steps over entries of s only. */
  ghost predicate EndsWithin(nodes: Nodes, y: Id, s: set<Id>, m: nat)
    decreases m
  {
    y == 0 || (m > 0 && y in nodes && y in s && EndsWithin(nodes, nodes[y].digi, s, m - 1))
  }

  lemma {:induction false} WithinWider(nodes: Nodes, nodes': Nodes, y: Id, s: set<Id>, s': set<Id>, m: nat)
    requires EndsWithin(nodes, y, s, m) && s <= s'
    requires forall n :: n in s && n in nodes ==> n in nodes' && nodes'[n].digi == nodes[n].digi
    ensures EndsWithin(nodes', y, s', m)
    decreases m
  {
    if y != 0 { WithinWider(nodes, nodes', nodes[y].digi, s, s', m - 1); }
  }

  lemma {:induction false} WithinEnds(nodes: Nodes, y: Id, s: set<Id>, m: nat)
    requires EndsWithin(nodes, y, s, m)
    ensures Ends(nodes, y, m)
    decreases m
  {
    if y != 0 { WithinEnds(nodes, nodes[y].digi, s, m - 1); }
  }

  /** From a permanent entry on everything is permanent. */
  lemma {:induction false} PermanentChain(nodes: Nodes, x: Id, s: set<Id>, k: nat)
    requires NoDangling(nodes) && PermanentClosed(nodes) && Ends(nodes, x, k)
    requires x in nodes ==> nodes[x].perm
    requires forall n :: n in nodes && nodes[n].perm ==> n in s
    ensures EndsWithin(nodes, x, s, k)
    decreases k
  {
    if x != 0 { PermanentChain(nodes, nodes[x].digi, s, k - 1); }
  }

  lemma {:induction false} RepointedEnds(nodes: Nodes, nodes': Nodes, x: Id, s: set<Id>, m: nat, z: Id,
      k: nat) returns (j: nat)
    requires x in nodes' && x !in s && EndsWithin(nodes', nodes'[x].digi, s, m)
    requires forall n :: n in nodes && n != x ==> n in nodes' && nodes'[n].digi == nodes[n].digi
    requires Ends(nodes, z, k)
    ensures Ends(nodes', z, j)
    decreases k
  {
    if z == 0 {
      j := 0;
    } else if z == x {
      WithinEnds(nodes', nodes'[x].digi, s, m);
      j := m + 1;
    } else {
      j := RepointedEnds(nodes, nodes', x, s, m, nodes[z].digi, k - 1);
      j := j + 1;
    }
  }

  /** Pointing x at an entry whose chain ends without meeting x closes no cycle. */
  lemma RepointKeepsAcyclic(nodes: Nodes, nodes': Nodes, x: Id, s: set<Id>, m: nat)
    requires Acyclic(nodes) && nodes'.Keys == nodes.Keys + {x}
    requires x !in s && EndsWithin(nodes', nodes'[x].digi, s, m)
    requires forall n :: n in nodes && n != x ==> nodes'[n].digi == nodes[n].digi
    ensures Acyclic(nodes')
  {
    forall z | z in nodes' ensures exists k: nat :: Ends(nodes', z, k) {
      if z == x {
        WithinEnds(nodes', nodes'[x].digi, s, m);
        assert Ends(nodes', x, m + 1);
      } else {
        var k: nat :| Ends(nodes, z, k);
        var j := RepointedEnds(nodes, nodes', x, s, m, z, k);
        assert Ends(nodes', z, j);
      }
    }
  }

  // ----- taking an entry away -----

  ghost function Redirected(r: Route, x: Id, instead: Id): Route {
    if r.digi == x then r.(digi := instead) else r
  }

  /** x is gone and whatever pointed at it points at `instead`. */
  ghost function Without(nodes: Nodes, x: Id, instead: Id): Nodes {
    map n | n in nodes && n != x :: Redirected(nodes[n], x, instead)
  }

  lemma {:induction false} WithoutEnds(nodes: Nodes, x: Id, d: nat, z: Id, k: nat)
    requires NoDangling(nodes) && x in nodes && d > 0
    requires Hop(nodes, x, d) != x
    requires z != x && Ends(nodes, z, k)
    ensures Ends(Without(nodes, x, Hop(nodes, x, d)), z, k)
    decreases k
  {
    var nodes' := Without(nodes, x, Hop(nodes, x, d));
    if z != 0 {
      if nodes[z].digi == x {
        HopShortens(nodes, x, k - 1, d);
        WithoutEnds(nodes, x, d, Hop(nodes, x, d), k - 2);
        EndsLater(nodes', Hop(nodes, x, d), k - 2, k - 1);
      } else {
        WithoutEnds(nodes, x, d, nodes[z].digi, k - 1);
      }
    }
  }

  /** An entry is never one of its own next hops. */
  lemma HopIsElsewhere(nodes: Nodes, x: Id, d: nat)
    requires NoDangling(nodes) && Acyclic(nodes) && x in nodes && d > 0
    ensures Hop(nodes, x, d) != x
  {
    var k: nat :| Ends(nodes, x, k);
    HopShortens(nodes, x, k, d);
  }

  /** Taking x away and sending what pointed at it on to a later hop of x. */
  lemma WithoutKeepsWellFormed(nodes: Nodes, x: Id, d: nat)
    requires WellFormed(nodes) && x in nodes && d > 0
    ensures WellFormed(Without(nodes, x, Hop(nodes, x, d)))
  {
    hide AddrEq, Ends, Hop;
    var y := Hop(nodes, x, d);
    var nodes' := Without(nodes, x, y);
    HopIsElsewhere(nodes, x, d);
    HopInside(nodes, x, d);
    if nodes[x].perm { HopPermanent(nodes, x, d); }
    forall z | z in nodes' ensures exists k: nat :: Ends(nodes', z, k) {
      var k: nat :| Ends(nodes, z, k);
      WithoutEnds(nodes, x, d, z, k);
    }
  }

  lemma {:induction false} HopPermanent(nodes: Nodes, x: Id, d: nat)
    requires NoDangling(nodes) && PermanentClosed(nodes) && (x in nodes ==> nodes[x].perm) && (x == 0 || x in nodes)
    ensures Hop(nodes, x, d) in nodes ==> nodes[Hop(nodes, x, d)].perm
    decreases d
  {
    if d > 0 && x in nodes { HopPermanent(nodes, nodes[x].digi, d - 1); }
  }

  /** Taking an entry that is not permanent away, and cutting what pointed at it. */
  lemma {:induction false} CutEnds(nodes: Nodes, x: Id, z: Id, k: nat)
    requires NoDangling(nodes) && z != x && Ends(nodes, z, k)
    ensures Ends(Without(nodes, x, 0), z, k)
    decreases k
  {
    if z != 0 && nodes[z].digi != x { CutEnds(nodes, x, nodes[z].digi, k - 1); }
  }

  lemma CutKeepsWellFormed(nodes: Nodes, x: Id)
    requires WellFormed(nodes) && x in nodes
    ensures WellFormed(Without(nodes, x, 0))
  {
    var nodes' := Without(nodes, x, 0);
    forall z | z in nodes' ensures exists k: nat :: Ends(nodes', z, k) {
      var k: nat :| Ends(nodes, z, k);
      CutEnds(nodes, x, z, k);
    }
  }

  /** What is left of a table without x: every other entry, the same in all but that it
      points at `instead` where it pointed at x. */
  lemma GoneMeans(nodes: Nodes, x: Id, instead: Id, n: Id)
    ensures n in Without(nodes, x, instead) <==> n in nodes && n != x
    ensures n in nodes && n != x ==>
              var r, r' := nodes[n], Without(nodes, x, instead)[n];
              r' == r.(digi := r'.digi) && r'.digi == if r.digi == x then instead else r.digi
  {
  }
}
