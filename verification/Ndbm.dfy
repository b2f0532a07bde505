/** The ndbm substitute of lib/ndbm.c: a list of records in memory that is read
    from a file on opening and written back on closing. */
module Ndbm {

  type Byte = b: int | 0 <= b < 0x100
  type Bytes = seq<Byte>

  /** "WNDBM1" and a newline. */
  const MAGIC: Bytes := [0x57, 0x4e, 0x44, 0x42, 0x4d, 0x31, 0x0a]

  datatype Record = Record(key: Bytes, val: Bytes)
  datatype Datum = Null | Datum(data: Bytes)
  datatype Flag = Insert | Replace

  // ----- the records as a map -----

  ghost predicate Unique(recs: seq<Record>) {
    forall i, j :: 0 <= i < j < |recs| ==> recs[i].key != recs[j].key
  }

  /** The first record with a key counts. */
  function AsMap(recs: seq<Record>): map<Bytes, Bytes> {
    if recs == [] then map[] else AsMap(recs[1..])[recs[0].key := recs[0].val]
  }

  function Find(recs: seq<Record>, key: Bytes): (i: nat)
    ensures i <= |recs| && forall j :: 0 <= j < i ==> recs[j].key != key
    ensures i < |recs| ==> recs[i].key == key
  {
    if recs == [] || recs[0].key == key then 0 else 1 + Find(recs[1..], key)
  }

  lemma {:induction false} MapFinds(recs: seq<Record>, key: Bytes)
    ensures key in AsMap(recs) <==> Find(recs, key) < |recs|
    ensures key in AsMap(recs) ==> AsMap(recs)[key] == recs[Find(recs, key)].val
  {
    if recs != [] && recs[0].key != key { MapFinds(recs[1..], key); }
  }

  lemma {:induction false} MapAppends(recs: seq<Record>, r: Record)
    requires Find(recs, r.key) == |recs|
    ensures AsMap(recs + [r]) == AsMap(recs)[r.key := r.val]
    decreases |recs|
  {
    if recs == [] {
      assert recs + [r] == [r] && [r][1..] == [];
    } else {
      var tail := recs[1..];
      assert (recs + [r])[1..] == tail + [r];
      assert Find(tail, r.key) == |tail|;
      MapAppends(tail, r);
    }
  }

  lemma AppendUnique(recs: seq<Record>, r: Record)
    requires Find(recs, r.key) == |recs|
    ensures Unique(recs) ==> Unique(recs + [r])
  {
    hide AsMap;
  }

  /** The record in its place, or at the end where there was none with the key. */
  function Stored(recs: seq<Record>, key: Bytes, val: Bytes): seq<Record> {
    var i := Find(recs, key);
    if i < |recs| then recs[i := Record(key, val)] else recs + [Record(key, val)]
  }

  lemma {:induction false} MapReplaces(recs: seq<Record>, i: nat, val: Bytes)
    requires i < |recs| && Find(recs, recs[i].key) == i
    ensures AsMap(recs[i := Record(recs[i].key, val)]) == AsMap(recs)[recs[i].key := val]
    ensures Unique(recs) ==> Unique(recs[i := Record(recs[i].key, val)])
  {
    var recs' := recs[i := Record(recs[i].key, val)];
    if i == 0 {
      assert recs'[1..] == recs[1..];
    } else {
      assert recs'[1..] == recs[1..][i - 1 := Record(recs[i].key, val)];
      MapReplaces(recs[1..], i - 1, val);
    }
  }

  function Removed(recs: seq<Record>, i: nat): seq<Record>
    requires i < |recs|
  {
    recs[..i] + recs[i + 1..]
  }

  lemma RemovedTail(recs: seq<Record>, i: nat)
    requires 0 < i < |recs|
    ensures Removed(recs, i) == [recs[0]] + Removed(recs[1..], i - 1)
    ensures Removed(recs, i)[1..] == Removed(recs[1..], i - 1)
    ensures recs[1..][i - 1] == recs[i] && recs[1..][i..] == recs[i + 1..]
  {
  }

  lemma {:induction false} OthersStay(recs: seq<Record>, i: nat, k: Bytes)
    requires i < |recs| && k != recs[i].key
    ensures k in AsMap(Removed(recs, i)) <==> k in AsMap(recs)
    ensures k in AsMap(recs) ==> AsMap(Removed(recs, i))[k] == AsMap(recs)[k]
    decreases i
  {
    if i == 0 {
      assert Removed(recs, 0) == recs[1..];
    } else {
      RemovedTail(recs, i);
      OthersStay(recs[1..], i - 1, k);
    }
  }

  lemma {:induction false} KeyGoesIff(recs: seq<Record>, i: nat)
    requires i < |recs| && Find(recs, recs[i].key) == i
    ensures recs[i].key !in AsMap(Removed(recs, i)) <==> Find(recs[i + 1..], recs[i].key) == |recs| - i - 1
    decreases i
  {
    var key := recs[i].key;
    if i == 0 {
      assert Removed(recs, 0) == recs[1..];
      MapFinds(recs[1..], key);
    } else {
      RemovedTail(recs, i);
      KeyGoesIff(recs[1..], i - 1);
    }
  }

  lemma RemovedUnique(recs: seq<Record>, i: nat)
    requires i < |recs| && Unique(recs)
    ensures Unique(Removed(recs, i)) && Find(recs[i + 1..], recs[i].key) == |recs| - i - 1
  {
    hide AsMap;
    assert forall j :: 0 <= j < |recs| - 1 ==> Removed(recs, i)[j] == recs[if j < i then j else j + 1];
  }

  /** Removing the first record with a key removes the key from the map exactly when
      no other record has it. */
  lemma MapRemoves(recs: seq<Record>, i: nat)
    requires i < |recs| && Find(recs, recs[i].key) == i
    ensures AsMap(Removed(recs, i)) == AsMap(recs) - {recs[i].key} <==>
              Find(recs[i + 1..], recs[i].key) == |recs| - i - 1
    ensures forall k :: k != recs[i].key ==> SameAt(AsMap(Removed(recs, i)), AsMap(recs), k)
  {
    hide AsMap, Find;
    var key := recs[i].key;
    forall k | k != key ensures SameAt(AsMap(Removed(recs, i)), AsMap(recs), k) {
      OthersStay(recs, i, k);
    }
    KeyGoesIff(recs, i);
    var m, m' := AsMap(recs), AsMap(Removed(recs, i));
    if key !in m' {
      forall k ensures SameAt(m', m - {key}, k) {
        if k != key { assert SameAt(m', m, k); }
      }
      SameEverywhere(m', m - {key});
    } else {
      assert m' != m - {key};
    }
  }

  ghost predicate SameAt(m: map<Bytes, Bytes>, m': map<Bytes, Bytes>, k: Bytes) {
    (k in m <==> k in m') && (k in m ==> m[k] == m'[k])
  }

  lemma SameEverywhere(m: map<Bytes, Bytes>, m': map<Bytes, Bytes>)
    requires forall k :: SameAt(m, m', k)
    ensures m == m'
  {
    assert forall k :: k in m ==> SameAt(m, m', k);
    assert forall k :: k in m' ==> SameAt(m, m', k);
  }

  // ----- the file -----

  /** put32 */
  function Put32(v: int): (r: Bytes)
    ensures |r| == 4
  {
    [v / 0x100_0000 % 0x100, v / 0x1_0000 % 0x100, v / 0x100 % 0x100, v % 0x100]
  }

  /** get32 */
  function Get32(p: Bytes): (v: int)
    requires |p| == 4
    ensures v >= 0
  {
    var a: int, b: int, c: int, d: int := p[0], p[1], p[2], p[3];
    a * 0x100_0000 + b * 0x1_0000 + c * 0x100 + d
  }

  lemma LengthComesBack(v: int)
    requires 0 <= v < 0x1_0000_0000
    ensures Get32(Put32(v)) == v
  {
    BytesOf(v);
  }

  lemma BytesOf(v: int)
    requires 0 <= v < 0x1_0000_0000
    ensures v == (v / 0x100_0000 % 0x100) * 0x100_0000
                 + (v / 0x1_0000 % 0x100) * 0x1_0000 + (v / 0x100 % 0x100) * 0x100 + v % 0x100
  {
    var a, b, c := v / 0x100_0000, v / 0x1_0000, v / 0x100;
    assert a % 0x100 == a && b / 0x100 == a && c / 0x100 == b;
  }

  function Field(b: Bytes): Bytes {
    Put32(|b|) + b
  }

  function Body(recs: seq<Record>): Bytes {
    if recs == [] then [] else Body(recs[..|recs| - 1]) + Field(recs[|recs| - 1].key) + Field(recs[|recs| - 1].val)
  }

  /** What dbm_close writes. */
  function Written(recs: seq<Record>): Bytes {
    MAGIC + Body(recs)
  }

  datatype Parsed = Short | Parsed(field: Bytes, rest: Bytes)

  /** Four bytes of length and as many as they say. */
  function ReadField(p: Bytes): (r: Parsed)
    ensures r.Parsed? ==> |r.rest| < |p|
  {
    if |p| < 4 || |p| - 4 < Get32(p[..4]) then Short
    else Parsed(p[4..4 + Get32(p[..4])], p[4 + Get32(p[..4])..])
  }

  /** The records before the first that is not complete. */
  function ReadRecords(p: Bytes): seq<Record>
    decreases |p|
  {
    var k := ReadField(p);
    if k.Short? then []
    else
      var v := ReadField(k.rest);
      if v.Short? then [] else [Record(k.field, v.field)] + ReadRecords(v.rest)
  }

  /** The records dbm_open finds in a file. */
  function Records(file: Bytes): seq<Record> {
    if |file| >= 7 && file[..7] == MAGIC then ReadRecords(file[7..]) else []
  }

  /** The greatest int, which counts the bytes of a datum. */
  const INT_MAX := 0x7fff_ffff

  /** A datum a caller can have. */
  predicate Fits(b: Bytes) {
    |b| <= INT_MAX
  }

  ghost predicate Storable(recs: seq<Record>) {
    forall i :: 0 <= i < |recs| ==> Fits(recs[i].key) && Fits(recs[i].val)
  }

  lemma FieldComesBack(b: Bytes, rest: Bytes)
    requires |b| < 0x1_0000_0000
    ensures ReadField(Field(b) + rest) == Parsed(b, rest)
  {
    hide Put32, Get32;
    LengthComesBack(|b|);
    var p := Field(b) + rest;
    assert p[..4] == Put32(|b|);
    assert p[4..4 + |b|] == b && p[4 + |b|..] == rest;
  }

  lemma {:induction false} BodyFromFirst(recs: seq<Record>)
    requires recs != []
    ensures Body(recs) == Field(recs[0].key) + (Field(recs[0].val) + Body(recs[1..]))
    decreases |recs|
  {
    hide Field, Body;
    var n := |recs| - 1;
    BodySnoc(recs[..n], recs[n]);
    assert recs[..n] + [recs[n]] == recs;
    if n == 0 {
      NoBody();
      assert recs[..0] == [] && recs[1..] == [];
    } else {
      var a, mid, z := recs[..n], recs[1..n], recs[n];
      BodyFromFirst(a);
      BodySnoc(mid, z);
      assert a[1..] == mid && a[0] == recs[0];
      assert recs[1..] == mid + [z];
      Regroup(Field(recs[0].key), Field(recs[0].val), Body(mid), Field(z.key), Field(z.val));
    }
  }

  lemma NoBody()
    ensures Body([]) == []
  {
  }

  lemma BodySnoc(recs: seq<Record>, r: Record)
    ensures Body(recs + [r]) == Body(recs) + Field(r.key) + Field(r.val)
  {
    hide Field;
    assert (recs + [r])[..|recs|] == recs;
  }

  lemma Regroup(a: Bytes, b: Bytes, m: Bytes, y: Bytes, z: Bytes)
    ensures a + (b + m) + y + z == a + (b + (m + y + z))
  {
  }

  lemma {:induction false} BodyComesBack(recs: seq<Record>)
    requires Storable(recs)
    ensures ReadRecords(Body(recs)) == recs
    decreases |recs|
  {
    hide Field, ReadField, Body;
    if recs == [] {
      EmptyBody();
    } else {
      BodyFromFirst(recs);
      var rest := Body(recs[1..]);
      FieldComesBack(recs[0].key, Field(recs[0].val) + rest);
      FieldComesBack(recs[0].val, rest);
      BodyComesBack(recs[1..]);
      assert [Record(recs[0].key, recs[0].val)] + recs[1..] == recs;
    }
  }

  lemma EmptyBody()
    ensures Body([]) == [] && ReadRecords([]) == []
  {
  }

  /** What was closed is found again when it is opened. */
  lemma ClosedOpens(recs: seq<Record>)
    requires Storable(recs)
    ensures Records(Written(recs)) == recs
  {
    hide Body, ReadRecords;
    assert Written(recs)[..7] == MAGIC && Written(recs)[7..] == Body(recs);
    BodyComesBack(recs);
  }

  // ----- the database -----

  /** An open file with its position. */
  class File {
    var contents: Bytes
    var pos: nat

    constructor (contents: Bytes)
      ensures this.contents == contents && pos == 0
    {
      this.contents, pos := contents, 0;
    }

    method Seek(to: nat)
      modifies this`pos
      ensures pos == to
    {
      pos := to;
    }

    /** read: fewer bytes at the end of the file */
    method Read(n: nat) returns (b: Bytes)
      requires pos <= |contents|
      modifies this`pos
      ensures pos == if old(pos) + n <= |contents| then old(pos) + n else |contents|
      ensures b == contents[old(pos)..pos]
    {
      var end := if pos + n <= |contents| then pos + n else |contents|;
      b := contents[pos..end];
      pos := end;
    }

    /** write, over what is there */
    method Write(b: Bytes)
      requires pos <= |contents|
      modifies this
      ensures pos == old(pos) + |b| <= |contents|
      ensures contents[..pos] == old(contents[..pos]) + b
    {
      contents := contents[..pos] + b + if pos + |b| <= |contents| then contents[pos + |b|..] else [];
      pos := pos + |b|;
    }

    /** ftruncate at the position */
    method Truncate()
      requires pos <= |contents|
      modifies this`contents
      ensures contents == old(contents[..pos])
    {
      contents := contents[..pos];
    }
  }

  class Dbm {
    const file: File
    var recs: seq<Record>
    var iter: nat
    var dirty: bool
    var error: bool

    /** dbm_open */
    constructor (file: File)
      requires file.pos == 0
      modifies file
      ensures this.file == file && recs == Records(file.contents) && !dirty && !error && iter == 0
      ensures file.contents == old(file.contents)
    {
      this.file := file;
      dirty, error, iter := false, false, 0;
      recs := [];
      new;
      var hdr := file.Read(7);
      if |hdr| == 7 && hdr == MAGIC {
        recs := ReadAll(file);
      }
    }

    /** dbm_fetch */
    method Fetch(key: Bytes) returns (r: Datum)
      ensures r == if key in AsMap(recs) then Datum(AsMap(recs)[key]) else Null
    {
      MapFinds(recs, key);
      var i := FindRec(key);
      r := if i == |recs| then Null else Datum(recs[i].val);
    }

    /** findrec */
    method FindRec(key: Bytes) returns (i: nat)
      ensures i == Find(recs, key)
    {
      i := 0;
      assert recs[0..] == recs;
      while i < |recs|
        invariant i <= |recs| && Find(recs, key) == i + Find(recs[i..], key)
      {
        assert recs[i..][1..] == recs[i + 1..];
        if recs[i].key == key { return; }
        i := i + 1;
      }
    }

    /** dbm_store */
    method Store(key: Bytes, val: Bytes, flag: Flag) returns (r: int)
      requires Fits(key) && Fits(val)
      modifies this`recs, this`dirty
      ensures old(Storable(recs)) ==> Storable(recs)
      ensures old(key in AsMap(recs)) && flag.Insert? ==> r == 1 && recs == old(recs) && dirty == old(dirty)
      ensures !(old(key in AsMap(recs)) && flag.Insert?) ==>
                r == 0 && dirty && AsMap(recs) == old(AsMap(recs))[key := val] && recs == Stored(old(recs), key, val)
      ensures old(Unique(recs)) ==> Unique(recs)
    {
      MapFinds(recs, key);
      var i := FindRec(key);
      if i < |recs| {
        if flag.Insert? { return 1; }
        MapReplaces(recs, i, val);
        recs := recs[i := Record(recs[i].key, val)];
      } else {
        MapAppends(recs, Record(key, val));
        AppendUnique(recs, Record(key, val));
        recs := recs + [Record(key, val)];
      }
      dirty := true;
      return 0;
    }

    /** dbm_delete; where no two records have the same key, as nothing but a file
        from elsewhere could bring about, the key is gone. */
    method Delete(key: Bytes) returns (r: int)
      modifies this`recs, this`dirty, this`error
      ensures old(Storable(recs)) ==> Storable(recs)
      ensures old(key !in AsMap(recs)) ==> r == -1 && error && recs == old(recs) && dirty == old(dirty)
      ensures old(key in AsMap(recs)) ==> r == 0 && dirty && error == old(error)
      ensures old(key in AsMap(recs)) ==>
                Find(old(recs), key) < |old(recs)| && recs == Removed(old(recs), Find(old(recs), key))
      ensures old(key in AsMap(recs)) ==> forall k :: k != key ==> SameAt(AsMap(recs), old(AsMap(recs)), k)
      ensures old(Unique(recs)) ==> Unique(recs) && AsMap(recs) == old(AsMap(recs)) - {key}
    {
      MapFinds(recs, key);
      var i := FindRec(key);
      if i == |recs| {
        error := true;
        return -1;
      }
      MapRemoves(recs, i);
      if Unique(recs) { RemovedUnique(recs, i); }
      recs := recs[..i] + recs[i + 1..];
      dirty := true;
      return 0;
    }

    /** dbm_firstkey */
    method FirstKey() returns (r: Datum)
      modifies this`iter
      ensures r == (if recs == [] then Null else Datum(recs[0].key)) && iter == if recs == [] then 0 else 1
    {
      iter := 0;
      r := NextKey();
    }

    /** dbm_nextkey */
    method NextKey() returns (r: Datum)
      modifies this`iter
      ensures r == (if old(iter) < |recs| then Datum(recs[old(iter)].key) else Null)
      ensures iter == if old(iter) < |recs| then old(iter) + 1 else old(iter)
    {
      if iter >= |recs| { return Null; }
      r := Datum(recs[iter].key);
      iter := iter + 1;
    }

    /** Going through the keys from the first: every key once. */
    method AllKeys() returns (keys: seq<Bytes>)
      requires Unique(recs)
      modifies this`iter
      ensures forall k :: k in keys <==> k in AsMap(recs)
      ensures forall i, j :: 0 <= i < j < |keys| ==> keys[i] != keys[j]
    {
      keys := [];
      var d := FirstKey();
      while d.Datum?
        invariant |keys| <= |recs| && forall i :: 0 <= i < |keys| ==> keys[i] == recs[i].key
        invariant if d.Null? then |keys| == |recs| == iter
                    else iter == |keys| + 1 <= |recs| && d == Datum(recs[|keys|].key)
        decreases |recs| - |keys|
      {
        keys := keys + [d.data];
        d := NextKey();
      }
      forall k ensures k in keys <==> k in AsMap(recs) {
        MapFinds(recs, k);
        if k in AsMap(recs) { assert keys[Find(recs, k)] == k; }
        if k in keys {
          var i :| 0 <= i < |keys| && keys[i] == k;
          assert recs[i].key == k;
        }
      }
    }

    /** dbm_clearerr */
    method ClearErr()
      modifies this`error
      ensures !error
    {
      error := false;
    }

    /** dbm_close: the file holds the records and nothing after them; but once an
        error was noted, which a deletion that finds no key does, no record at all. */
    method Close()
      modifies file
      ensures dirty ==> file.contents == if error then MAGIC else Written(recs)
      ensures !dirty ==> file.contents == old(file.contents)
    {
      hide Field, Put32;
      if dirty {
        file.Seek(0);
        file.Write(MAGIC);
        var i := 0;
        while i < |recs| && !error
          invariant 0 <= i <= |recs| && (error ==> i == 0)
          invariant file.pos <= |file.contents| && file.contents[..file.pos] == Written(recs[..i])
          decreases |recs| - i
        {
          WriteRecord(recs[i]);
          assert recs[..i + 1][..i] == recs[..i];
          i := i + 1;
        }
        assert recs[..|recs|] == recs;
        file.Truncate();
      }
    }

    method WriteRecord(r: Record)
      requires file.pos <= |file.contents|
      modifies file
      ensures file.pos <= |file.contents|
      ensures file.contents[..file.pos] == old(file.contents[..file.pos]) + Field(r.key) + Field(r.val)
    {
      hide Put32;
      ghost var c := file.contents[..file.pos];
      file.Write(Put32(|r.key|));
      file.Write(r.key);
      assert file.contents[..file.pos] == c + Field(r.key);
      file.Write(Put32(|r.val|));
      file.Write(r.val);
      assert file.contents[..file.pos] == c + Field(r.key) + Field(r.val);
    }
  }

  /** One length and the bytes it announces; nothing if the file ends before. */
  method ReadOne(file: File) returns (ok: bool, b: Bytes)
    requires file.pos <= |file.contents|
    modifies file`pos
    ensures old(file.pos) <= file.pos <= |file.contents|
    ensures ok <==> ReadField(file.contents[old(file.pos)..]).Parsed?
    ensures ok ==>
              && ReadField(file.contents[old(file.pos)..]) == Parsed(b, file.contents[file.pos..])
              && old(file.pos) < file.pos
  {
    hide Get32;
    ghost var p := file.contents[file.pos..];
    var lenb := file.Read(4);
    if |lenb| != 4 { return false, []; }
    assert p[..4] == lenb;
    var n := Get32(lenb);
    b := file.Read(n);
    ok := |b| == n;
  }

  /** The loop of dbm_open. */
  method ReadAll(file: File) returns (recs: seq<Record>)
    requires file.pos <= |file.contents|
    modifies file`pos
    ensures recs == ReadRecords(file.contents[old(file.pos)..])
  {
    hide ReadField;
    recs := [];
    while true
      invariant file.pos <= |file.contents|
      invariant recs + ReadRecords(file.contents[file.pos..]) == ReadRecords(file.contents[old(file.pos)..])
      decreases |file.contents| - file.pos
    {
      var ok, key := ReadOne(file);
      if !ok { break; }
      var ok2, val := ReadOne(file);
      if !ok2 { break; }
      recs := recs + [Record(key, val)];
    }
  }

  /** Closing a changed database and opening it again, however long the file was
      before: the same records are there exactly when no error was noted or there
      were none; otherwise there are none. */
  method CloseAndOpen(db: Dbm) returns (again: Dbm)
    requires db.dirty && Storable(db.recs)
    modifies db.file
    ensures fresh(again) && again.recs == if db.error then [] else db.recs
    ensures again.recs == db.recs <==> !db.error || db.recs == []
  {
    hide Written, Records;
    db.Close();
    ClosedOpens(db.recs);
    MagicAlone();
    db.file.Seek(0);
    again := new Dbm(db.file);
  }

  lemma MagicAlone()
    ensures Records(MAGIC) == []
  {
  }

  /** One record is stored and the deletion of another key fails. Unless the caller
      clears the error, nothing is left when the database is opened again. */
  method FailedDelete(clear: bool) returns (before: seq<Record>, after: seq<Record>)
    ensures before == [Record([1], [2])]
    ensures after == if clear then before else []
  {
    var file := new File([]);
    var db := new Dbm(file);
    assert db.recs == [];
    var stored := db.Store([1], [2], Insert);
    var deleted := db.Delete([3]);
    if clear { db.ClearErr(); }
    before := db.recs;
    var again := CloseAndOpen(db);
    after := again.recs;
  }

  /** The high byte of a length comes first. */
  lemma HighByteFirst(p: Bytes)
    requires |p| == 4
    ensures Get32(p) == ((p[0] as int * 0x100 + p[1] as int) * 0x100 + p[2] as int) * 0x100 + p[3] as int
    ensures Put32(Get32(p)) == p
  {
    DigitsOf(p[0], p[1], p[2], p[3]);
  }

  lemma DigitsOf(a: int, b: int, c: int, d: int)
    requires 0 <= a < 0x100 && 0 <= b < 0x100 && 0 <= c < 0x100 && 0 <= d < 0x100
    ensures var v := a * 0x100_0000 + b * 0x1_0000 + c * 0x100 + d;
            && v / 0x100_0000 % 0x100 == a && v / 0x1_0000 % 0x100 == b && v / 0x100 % 0x100 == c && v % 0x100 == d
  {
    var v := a * 0x100_0000 + b * 0x1_0000 + c * 0x100 + d;
    assert v / 0x100 == a * 0x1_0000 + b * 0x100 + c;
    assert v / 0x1_0000 == a * 0x100 + b;
    assert v / 0x100_0000 == a;
  }

  /** The file that holds the one record of a single byte for two: "WNDBM1", a newline, and
      each field after its length. */
  lemma FileOfOne(a: Byte, b: Byte, c: Byte)
    ensures Written([Record([a], [b, c])]) ==
              [0x57, 0x4e, 0x44, 0x42, 0x4d, 0x31, 0x0a, 0, 0, 0, 1, a, 0, 0, 0, 2, b, c]
  {
    var r := Record([a], [b, c]);
    assert [r][..0] == [];
    assert Body([r]) == Body([]) + Field([a]) + Field([b, c]);
  }
}
