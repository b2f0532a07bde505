/** Duplicate suppression of convers/conversd.c: the index of the digests of the
    lines accepted lately. */
module ConversUnique {
  import Md5

  const CHECK_UNIQUE_TIME := 30 * 60
  const MAKE_UNIQUE_TIME := 60 * 60

  type Digest = d: seq<bv8> | |d| == 16 witness [0, 0, 0, 0, 0, 0, 0, 0, 0, 0, 0, 0, 0, 0, 0, 0]

  /** A pointer to an entry; 0 is null. */
  type Id = int

  /** struct string_t */
  datatype Entry = Entry(next: Id, time: int, digest: Digest)

  /** The entries that are allocated. A pointer outside this map dangles. */
  type Entries = map<Id, Entry>

  datatype Accepted = Accepted(digest: Digest, time: int, duration: int)

  function Bucket(d: Digest): (i: nat)
    ensures i < 256
  {
    d[0] as int
  }

  ghost function At(c: seq<Id>, k: int): Id {
    if 0 <= k < |c| then c[k] else 0
  }

  /** c is the list from head on, all of it of bucket i, oldest first. */
  ghost predicate Chain(entries: Entries, head: Id, c: seq<Id>, i: int) {
    && head == At(c, 0)
    && (forall k :: 0 <= k < |c| ==> LinkOk(entries, c, k, i))
    && (forall j, k :: 0 <= j < k < |c| ==> c[j] != c[k])
    && (forall j, k :: 0 <= j < k < |c| ==> InTime(entries, c[j], c[k]))
  }

  ghost predicate LinkOk(entries: Entries, c: seq<Id>, k: int, i: int)
    requires 0 <= k < |c|
  {
    c[k] != 0 && c[k] in entries && entries[c[k]].next == At(c, k + 1) && Bucket(entries[c[k]].digest) == i
  }

  ghost predicate InTime(entries: Entries, a: Id, b: Id) {
    a in entries && b in entries && entries[a].time <= entries[b].time
  }

  /** The tail pointer is right while the list is not empty; it dangles otherwise. */
  ghost predicate TailOk(tail: Id, c: seq<Id>) {
    c != [] ==> tail == c[|c| - 1]
  }

  ghost predicate Holds(entries: Entries, c: seq<Id>, a: Accepted) {
    exists k :: 0 <= k < |c| && IsFor(entries, c[k], a)
  }

  ghost predicate IsFor(entries: Entries, id: Id, a: Accepted) {
    id in entries && entries[id].digest == a.digest && entries[id].time == a.time
  }

  /** Every acceptance is in the list of its bucket unless it is too old to matter. */
  ghost predicate Remembered(entries: Entries, chains: seq<seq<Id>>, a: Accepted, last: int)
    requires |chains| == 256
  {
    a.time <= last && (a.time < last - MAKE_UNIQUE_TIME || Holds(entries, chains[Bucket(a.digest)], a))
  }

  ghost predicate FromHistory(entries: Entries, id: Id, history: seq<Accepted>) {
    exists x :: 0 <= x < |history| && IsFor(entries, id, history[x])
  }

  /** The same digest was accepted again only after the time that was asked for. */
  ghost predicate Spaced(history: seq<Accepted>) {
    forall x, y :: 0 <= x < y < |history| && history[x].digest == history[y].digest ==>
      history[y].time - history[x].time > history[y].duration
  }

  ghost predicate SeenSince(history: seq<Accepted>, d: Digest, since: int) {
    exists x :: 0 <= x < |history| && SeenAt(history[x], d, since)
  }

  ghost predicate SeenAt(a: Accepted, d: Digest, since: int) {
    a.digest == d && a.time >= since
  }

  ghost predicate BucketOk(entries: Entries, head: Id, tail: Id, c: seq<Id>, i: int, history: seq<Accepted>) {
    && Chain(entries, head, c, i) && TailOk(tail, c)
    && forall k :: 0 <= k < |c| ==> FromHistory(entries, c[k], history)
  }

  // ----- steps on one list -----

  /** Taking the oldest entry of bucket i away. */
  lemma HeadGoes(entries: Entries, head: Id, tail: Id, c: seq<Id>, i: int, history: seq<Accepted>)
    requires BucketOk(entries, head, tail, c, i, history) && c != []
    ensures head in entries && Bucket(entries[head].digest) == i
    ensures BucketOk(entries - {head}, entries[head].next, tail, c[1..], i, history)
  {
    hide Bucket, InTime, FromHistory, LinkOk;
    assert LinkOk(entries, c, 0, i);
    HeadLink(entries, head, c, i);
    var e', c' := entries - {head}, c[1..];
    assert forall k :: 0 <= k < |c'| ==> c'[k] == c[k + 1] && c[k + 1] != c[0];
    forall k | 0 <= k < |c'| ensures LinkOk(e', c', k, i) && FromHistory(e', c'[k], history) {
      assert LinkOk(entries, c, k + 1, i) && FromHistory(entries, c[k + 1], history);
      LaterLink(entries, head, c, k, i, history);
    }
    forall j, k | 0 <= j < k < |c'| ensures InTime(e', c'[j], c'[k]) {
      assert InTime(entries, c[j + 1], c[k + 1]);
      StillInTime(entries, head, c'[j], c'[k]);
    }
  }

  lemma HeadLink(entries: Entries, head: Id, c: seq<Id>, i: int)
    requires c != [] && LinkOk(entries, c, 0, i) && head == c[0]
    ensures head in entries && Bucket(entries[head].digest) == i && entries[head].next == At(c[1..], 0)
  {
    hide Bucket;
  }

  lemma StillInTime(entries: Entries, head: Id, a: Id, b: Id)
    requires InTime(entries, a, b) && a != head && b != head
    ensures InTime(entries - {head}, a, b)
  {
  }

  lemma LaterLink(entries: Entries, head: Id, c: seq<Id>, k: int, i: int, history: seq<Accepted>)
    requires 0 <= k < |c| - 1 && LinkOk(entries, c, k + 1, i) && FromHistory(entries, c[k + 1], history)
    requires c[k + 1] != head
    ensures LinkOk(entries - {head}, c[1..], k, i) && FromHistory(entries - {head}, c[k + 1], history)
  {
    hide Bucket;
    var x :| 0 <= x < |history| && IsFor(entries, c[k + 1], history[x]);
    assert IsFor(entries - {head}, c[k + 1], history[x]);
  }

  /** What is younger than the oldest entry stays. */
  lemma YoungerStays(entries: Entries, head: Id, c: seq<Id>, a: Accepted)
    requires c != [] && head == c[0] && head in entries && forall k :: 0 < k < |c| ==> c[k] != head
    requires Holds(entries, c, a) && a.time != entries[head].time
    ensures Holds(entries - {head}, c[1..], a)
  {
    var k :| 0 <= k < |c| && IsFor(entries, c[k], a);
    assert IsFor(entries - {head}, c[1..][k - 1], a);
  }

  /** Another bucket does not notice. */
  lemma OtherBucket(entries: Entries, entries': Entries, head: Id, tail: Id, c: seq<Id>, i: int, history: seq<Accepted>)
    requires BucketOk(entries, head, tail, c, i, history)
    requires forall id :: id in entries && Bucket(entries[id].digest) == i ==>
               id in entries' && entries'[id] == entries[id]
    ensures BucketOk(entries', head, tail, c, i, history)
    ensures forall a :: Holds(entries, c, a) ==> Holds(entries', c, a)
  {
    hide Bucket;
    forall k | 0 <= k < |c|
      ensures LinkOk(entries', c, k, i) && entries'[c[k]] == entries[c[k]] && FromHistory(entries', c[k], history)
    {
      assert LinkOk(entries, c, k, i) && FromHistory(entries, c[k], history);
      var x :| 0 <= x < |history| && IsFor(entries, c[k], history[x]);
      assert IsFor(entries', c[k], history[x]);
    }
    forall j, k | 0 <= j < k < |c| ensures InTime(entries', c[j], c[k]) {
      assert InTime(entries, c[j], c[k]);
    }
    forall a | Holds(entries, c, a) ensures Holds(entries', c, a) {
      var k :| 0 <= k < |c| && IsFor(entries, c[k], a);
      assert IsFor(entries', c[k], a);
    }
  }

  /** The list with a new entry at its end. */
  function Appended(entries: Entries, head: Id, tail: Id, sp: Id, e: Entry): Entries {
    if head != 0 && tail in entries then entries[sp := e][tail := entries[tail].(next := sp)] else entries[sp := e]
  }

  lemma TailGrows(entries: Entries, head: Id, tail: Id, c: seq<Id>, i: int, history: seq<Accepted>, sp: Id, a: Accepted)
    requires BucketOk(entries, head, tail, c, i, history) && sp !in entries && sp != 0
    requires Bucket(a.digest) == i && forall k :: 0 <= k < |c| ==> c[k] in entries && entries[c[k]].time <= a.time
    ensures var e' := Appended(entries, head, tail, sp, Entry(0, a.time, a.digest));
            && BucketOk(e', if head != 0 then head else sp, sp, c + [sp], i, history + [a])
            && Holds(e', c + [sp], a) && (forall b :: Holds(entries, c, b) ==> Holds(e', c + [sp], b))
            && (head != 0 ==> tail in entries && Bucket(entries[tail].digest) == i)
            && forall id :: id in entries && Bucket(entries[id].digest) != i ==> id in e' && e'[id] == entries[id]
  {
    hide Bucket;
    var e' := Appended(entries, head, tail, sp, Entry(0, a.time, a.digest));
    var c', h' := c + [sp], history + [a];
    if c != [] { assert LinkOk(entries, c, |c| - 1, i) && LinkOk(entries, c, 0, i); }
    forall k | 0 <= k < |c'| ensures LinkOk(e', c', k, i) && FromHistory(e', c'[k], h') {
      if k < |c| {
        assert LinkOk(entries, c, k, i) && FromHistory(entries, c[k], history);
        var x :| 0 <= x < |history| && IsFor(entries, c[k], history[x]);
        assert h'[x] == history[x] && IsFor(e', c'[k], h'[x]);
        if k < |c| - 1 { assert c[k] != c[|c| - 1]; }
      } else {
        assert IsFor(e', c'[k], h'[|history|]);
      }
    }
    forall j, k | 0 <= j < k < |c'| ensures InTime(e', c'[j], c'[k]) {
      if k < |c| { assert InTime(entries, c[j], c[k]); }
    }
    assert c'[|c|] == sp && IsFor(e', sp, a);
    forall b | Holds(entries, c, b) ensures Holds(e', c', b) {
      var k :| 0 <= k < |c| && IsFor(entries, c[k], b);
      assert c'[k] == c[k] && IsFor(e', c'[k], b);
    }
  }

  // ----- the whole index -----

  ghost predicate AllOk(entries: Entries, heads: seq<Id>, tails: seq<Id>, chains: seq<seq<Id>>,
      history: seq<Accepted>) {
    && |heads| == |tails| == |chains| == 256
    && forall i :: 0 <= i < 256 ==> BucketOk(entries, heads[i], tails[i], chains[i], i, history)
  }

  /** What is not older than the limit is still there. */
  ghost predicate Kept(entries: Entries, chains: seq<seq<Id>>, entries': Entries, chains': seq<seq<Id>>, limit: int) {
    && |chains| == |chains'| == 256
    && forall i, a: Accepted :: 0 <= i < 256 && a.time >= limit && Holds(entries, chains[i], a) ==>
         Holds(entries', chains'[i], a)
  }

  lemma PruneStep(entries: Entries, heads: seq<Id>, tails: seq<Id>, chains: seq<seq<Id>>,
      history: seq<Accepted>, i: nat, limit: int)
    requires AllOk(entries, heads, tails, chains, history) && i < 256 && heads[i] != 0
    ensures heads[i] in entries && chains[i] != []
    ensures entries[heads[i]].time < limit ==>
              var entries', chains' := entries - {heads[i]}, chains[i := chains[i][1..]];
              AllOk(entries', heads[i := entries[heads[i]].next], tails, chains', history)
                  && Kept(entries, chains, entries', chains', limit)
  {
    hide Bucket, BucketOk, Holds;
    assert BucketOk(entries, heads[i], tails[i], chains[i], i, history);
    NotEmpty(entries, heads[i], tails[i], chains[i], i, history);
    HeadGoes(entries, heads[i], tails[i], chains[i], i, history);
    var entries' := entries - {heads[i]};
    forall j | 0 <= j < 256 && j != i
      ensures BucketOk(entries', heads[j], tails[j], chains[j], j, history)
      ensures forall a :: Holds(entries, chains[j], a) ==> Holds(entries', chains[j], a)
    {
      assert BucketOk(entries, heads[j], tails[j], chains[j], j, history);
      OtherBucket(entries, entries', heads[j], tails[j], chains[j], j, history);
    }
    forall a | Holds(entries, chains[i], a) && a.time > entries[heads[i]].time
      ensures Holds(entries', chains[i][1..], a)
    {
      YoungerStays(entries, heads[i], chains[i], a);
    }
  }

  lemma NotEmpty(entries: Entries, head: Id, tail: Id, c: seq<Id>, i: int, history: seq<Accepted>)
    requires BucketOk(entries, head, tail, c, i, history)
    ensures head == 0 <==> c == []
    ensures head != 0 ==> c[0] == head && head in entries && forall k :: 0 < k < |c| ==> c[k] != head
  {
    hide Bucket;
    if c != [] { assert LinkOk(entries, c, 0, i); }
  }

  lemma KeptTwice(e0: Entries, c0: seq<seq<Id>>, e1: Entries, c1: seq<seq<Id>>, e2: Entries, c2: seq<seq<Id>>,
      limit: int)
    requires Kept(e0, c0, e1, c1, limit) && Kept(e1, c1, e2, c2, limit)
    ensures Kept(e0, c0, e2, c2, limit)
  {
    hide Holds;
  }

  /** The index after an acceptance. */
  lemma AppendStep(entries: Entries, heads: seq<Id>, tails: seq<Id>, chains: seq<seq<Id>>,
      history: seq<Accepted>, sp: Id, a: Accepted)
    requires AllOk(entries, heads, tails, chains, history) && sp !in entries && sp != 0
    requires forall x :: 0 <= x < |history| ==> history[x].time <= a.time
    ensures var i := Bucket(a.digest); var head := heads[i];
            var entries' := Appended(entries, head, tails[i], sp, Entry(0, a.time, a.digest));
            var chains' := chains[i := chains[i] + [sp]];
            && AllOk(entries', heads[i := if head != 0 then head else sp], tails[i := sp], chains', history + [a])
            && (forall j, b: Accepted :: 0 <= j < 256 && Holds(entries, chains[j], b) ==>
                 Holds(entries', chains'[j], b))
            && Holds(entries', chains'[i], a)
            && (head != 0 ==> tails[i] in entries)
  {
    hide Bucket, BucketOk, Holds;
    var i := Bucket(a.digest);
    assert BucketOk(entries, heads[i], tails[i], chains[i], i, history);
    var entries' := Appended(entries, heads[i], tails[i], sp, Entry(0, a.time, a.digest));
    TimesKnown(entries, heads[i], tails[i], chains[i], i, history, a.time);
    TailGrows(entries, heads[i], tails[i], chains[i], i, history, sp, a);
    forall j | 0 <= j < 256 && j != i
      ensures BucketOk(entries', heads[j], tails[j], chains[j], j, history + [a])
      ensures forall b :: Holds(entries, chains[j], b) ==> Holds(entries', chains[j], b)
    {
      assert BucketOk(entries, heads[j], tails[j], chains[j], j, history);
      OtherBucket(entries, entries', heads[j], tails[j], chains[j], j, history);
      LongerHistory(entries', heads[j], tails[j], chains[j], j, history, a);
    }
  }

  lemma TimesKnown(entries: Entries, head: Id, tail: Id, c: seq<Id>, i: int, history: seq<Accepted>, now: int)
    requires BucketOk(entries, head, tail, c, i, history)
    requires forall x :: 0 <= x < |history| ==> history[x].time <= now
    ensures forall k :: 0 <= k < |c| ==> c[k] in entries && entries[c[k]].time <= now
  {
    hide Bucket;
    forall k | 0 <= k < |c| ensures c[k] in entries && entries[c[k]].time <= now {
      assert FromHistory(entries, c[k], history);
    }
  }

  lemma LongerHistory(entries: Entries, head: Id, tail: Id, c: seq<Id>, i: int, history: seq<Accepted>, a: Accepted)
    requires BucketOk(entries, head, tail, c, i, history)
    ensures BucketOk(entries, head, tail, c, i, history + [a])
  {
    hide Bucket, Chain;
    forall k | 0 <= k < |c| ensures FromHistory(entries, c[k], history + [a]) {
      assert FromHistory(entries, c[k], history);
      var x :| 0 <= x < |history| && IsFor(entries, c[k], history[x]);
      assert (history + [a])[x] == history[x];
    }
  }

  /** The answer of the search through a list that holds all that matters. */
  lemma SearchIsRight(entries: Entries, head: Id, tail: Id, c: seq<Id>, i: int, history: seq<Accepted>,
      d: Digest, since: int)
    requires BucketOk(entries, head, tail, c, i, history)
    requires forall x :: 0 <= x < |history| && SeenAt(history[x], d, since) ==> Holds(entries, c, history[x])
    ensures SeenSince(history, d, since) <==>
              exists k :: 0 <= k < |c| && Matches(entries, c[k], d, since)
  {
    hide Bucket, Chain;
    if SeenSince(history, d, since) {
      var x :| 0 <= x < |history| && SeenAt(history[x], d, since);
      var k :| 0 <= k < |c| && IsFor(entries, c[k], history[x]);
      assert Matches(entries, c[k], d, since);
    }
    if k :| 0 <= k < |c| && Matches(entries, c[k], d, since) {
      assert FromHistory(entries, c[k], history);
      var x :| 0 <= x < |history| && IsFor(entries, c[k], history[x]);
      assert SeenAt(history[x], d, since);
    }
  }

  ghost predicate Matches(entries: Entries, id: Id, d: Digest, since: int) {
    id in entries && entries[id].time >= since && entries[id].digest == d
  }

  class UniqueIndex {
    const strings: array<Id>
    const stringstail: array<Id>
    var entries: Entries
    var nextId: Id
    ghost var chains: seq<seq<Id>>
    ghost var history: seq<Accepted>
    ghost var last: int

    ghost predicate Sound()
      reads this, strings, stringstail
    {
      && strings.Length == 256 && stringstail.Length == 256 && strings != stringstail && |chains| == 256
      && AllOk(entries, strings[..], stringstail[..], chains, history)
      && nextId > 0 && forall id :: id in entries ==> id < nextId
    }

    ghost predicate Valid()
      reads this, strings, stringstail
    {
      && Sound() && Spaced(history)
      && forall x :: 0 <= x < |history| ==> Remembered(entries, chains, history[x], last)
    }

    constructor ()
      ensures Valid() && history == [] && fresh(strings) && fresh(stringstail)
    {
      strings := new Id[256](_ => 0);
      stringstail := new Id[256](_ => 0);
      entries := map[];
      nextId := 1;
      chains := seq(256, _ => []);
      history := [];
      last := 0;
    }

    /** The entries of bucket i that are too old for any question are freed. */
    method Prune(i: nat, limit: int)
      requires Sound() && i < 256
      modifies this`entries, this`chains, strings
      ensures Sound() && Kept(old(entries), old(chains), entries, chains, limit)
    {
      hide AllOk, Kept;
      SameKept(entries, chains, limit, strings[..], stringstail[..], history);
      while strings[i] != 0
        invariant Sound() && Kept(old(entries), old(chains), entries, chains, limit)
        decreases |chains[i]|
      {
        PruneStep(entries, strings[..], stringstail[..], chains, history, i, limit);
        var sp := strings[i];
        if entries[sp].time >= limit { break; }
        ghost var e, c, h := entries, chains, strings[..];
        strings[i] := entries[sp].next;
        entries := entries - {sp};
        chains := chains[i := chains[i][1..]];
        assert strings[..] == h[i := e[sp].next];
        KeptTwice(old(entries), old(chains), e, c, entries, chains, limit);
      }
    }

    /** is_string_unique */
    method IsStringUnique(text: seq<bv8>, duration: int, now: int) returns (unique: bool)
      requires Valid() && last <= now && duration <= MAKE_UNIQUE_TIME && |text| < 0x1_0000_0000
      modifies this, strings, stringstail
      ensures Valid() && last == now
      ensures unique <==> !SeenSince(old(history), Md5.Digest(text), now - duration)
      ensures history == if unique then old(history) + [Accepted(Md5.Digest(text), now, duration)] else old(history)
    {
      hide Sound, Valid, SeenSince, Md5.Digest, Md5.Absorb, Md5.Whole, Md5.Tail, Md5.Counts;
      var ctx := new Md5.Md5Context();
      ctx.Update(text);
      assert [] + text == text;
      var d := ctx.Final();
      unique := IsDigestUnique(d, duration, now);
    }

    /** What follows once the digest is made. */
    method IsDigestUnique(d: Digest, duration: int, now: int) returns (unique: bool)
      requires Valid() && last <= now && duration <= MAKE_UNIQUE_TIME
      modifies this, strings, stringstail
      ensures Valid() && last == now
      ensures unique <==> !SeenSince(old(history), d, now - duration)
      ensures history == if unique then old(history) + [Accepted(d, now, duration)] else old(history)
    {
      hide AllOk, Kept, Bucket, Holds, Spaced, SeenSince, BucketOk;
      var i := Bucket(d);
      Prune(i, now - MAKE_UNIQUE_TIME);
      StillRemembered(old(entries), old(chains), entries, chains, history, old(last), now);
      last := now;
      var seen := Search(i, d, now - duration);
      if seen { return false; }
      Append(i, d, now, duration);
      unique := true;
    }

    /** The search through a bucket. */
    method Search(i: nat, d: Digest, since: int) returns (seen: bool)
      requires Sound() && i == Bucket(d) && since >= last - MAKE_UNIQUE_TIME
      requires forall x :: 0 <= x < |history| ==> Remembered(entries, chains, history[x], last)
      ensures seen <==> SeenSince(history, d, since)
    {
      hide Bucket, Holds, SeenSince;
      ghost var c := chains[i];
      assert BucketOk(entries, strings[i], stringstail[i], c, i, history);
      SearchIsRight(entries, strings[i], stringstail[i], c, i, history, d, since);
      var sp := strings[i];
      ghost var k := 0;
      forall j | 0 <= j < |c| ensures c[j] != 0 { assert LinkOk(entries, c, j, i); }
      while sp != 0
        invariant 0 <= k <= |c| && sp == At(c, k)
        invariant forall j :: 0 <= j < k ==> !Matches(entries, c[j], d, since)
        decreases |c| - k
      {
        assert LinkOk(entries, c, k, i);
        if entries[sp].time >= since && entries[sp].digest == d {
          assert Matches(entries, c[k], d, since);
          return true;
        }
        sp, k := entries[sp].next, k + 1;
      }
      return false;
    }

    /** A new entry at the end of the bucket. */
    method Append(i: nat, d: Digest, now: int, duration: int)
      requires Valid() && i == Bucket(d) && last == now && duration <= MAKE_UNIQUE_TIME
      requires !SeenSince(history, d, now - duration)
      modifies this, strings, stringstail
      ensures Valid() && last == now && history == old(history) + [Accepted(d, now, duration)]
    {
      hide AllOk, Bucket, Holds, Spaced, SeenSince;
      var sp := nextId;
      ghost var a := Accepted(d, now, duration);
      ghost var e0, c0, h0 := entries, chains, history;
      AppendStep(entries, strings[..], stringstail[..], chains, history, sp, a);
      StaysSpaced(history, a);
      ghost var heads, tails := strings[..], stringstail[..];
      nextId := nextId + 1;
      entries := entries[sp := Entry(0, now, d)];
      if strings[i] != 0 {
        var tail := stringstail[i];
        entries := entries[tail := entries[tail].(next := sp)];
      } else {
        strings[i] := sp;
      }
      stringstail[i] := sp;
      chains := chains[i := chains[i] + [sp]];
      history := history + [a];
      assert strings[..] == heads[i := strings[i]] && stringstail[..] == tails[i := sp];
      AllRemembered(e0, c0, h0, entries, chains, a);
    }
  }

  lemma SameKept(entries: Entries, chains: seq<seq<Id>>, limit: int, heads: seq<Id>, tails: seq<Id>,
      history: seq<Accepted>)
    requires AllOk(entries, heads, tails, chains, history)
    ensures Kept(entries, chains, entries, chains, limit)
  {
  }

  lemma StillRemembered(e0: Entries, c0: seq<seq<Id>>, e1: Entries, c1: seq<seq<Id>>, history: seq<Accepted>,
      last: int, now: int)
    requires Kept(e0, c0, e1, c1, now - MAKE_UNIQUE_TIME) && last <= now
    requires forall x :: 0 <= x < |history| ==> Remembered(e0, c0, history[x], last)
    ensures forall x :: 0 <= x < |history| ==> Remembered(e1, c1, history[x], now)
  {
    hide Holds, Bucket;
  }

  lemma AllRemembered(e0: Entries, c0: seq<seq<Id>>, history: seq<Accepted>, e1: Entries, c1: seq<seq<Id>>, a: Accepted)
    requires |c0| == |c1| == 256
    requires forall j, b: Accepted :: 0 <= j < 256 && Holds(e0, c0[j], b) ==> Holds(e1, c1[j], b)
    requires forall x :: 0 <= x < |history| ==> Remembered(e0, c0, history[x], a.time)
    requires Holds(e1, c1[Bucket(a.digest)], a)
    ensures var h := history + [a]; forall x :: 0 <= x < |h| ==> Remembered(e1, c1, h[x], a.time)
  {
    hide Holds, Bucket;
    var h := history + [a];
    forall x | 0 <= x < |h| ensures Remembered(e1, c1, h[x], a.time) {
      if x < |history| { assert Remembered(e0, c0, history[x], a.time); }
    }
  }

  lemma StaysSpaced(history: seq<Accepted>, a: Accepted)
    requires Spaced(history) && !SeenSince(history, a.digest, a.time - a.duration)
    ensures Spaced(history + [a])
  {
    var h := history + [a];
    forall x, y | 0 <= x < y < |h| && h[x].digest == h[y].digest ensures h[y].time - h[x].time > h[y].duration {
      if y == |history| { assert !SeenAt(history[x], a.digest, a.time - a.duration); }
    }
  }
}
