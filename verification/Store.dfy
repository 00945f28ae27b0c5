/**
 The three MVCC partitions, as values: data by (key, start_ts), locks by key, commit and rollback
 records by (key, ts).  Records are reached only by walking encoded keys in byte order.
 */
module Store {
  import opened Bytes
  import opened Ordered
  import opened Wrappers
  import opened KeyEncoder
  import opened Records

  type Value = Bytes
  type Writes = map<Version, WriteRecord>

  datatype Store = Store(data: map<Version, Value>, locks: map<Key, Lock>, writes: Writes) {
    /** The lock on `key` belongs to the transaction started at `start`. */
    predicate LockedBy(key: Key, start: Ts) {
      key in locks && locks[key].start == start
    }
  }

  const EMPTY := Store(map[], map[], map[])

  // ---------- Ordered scans ----------

  /** `write_partition.range(seek..)`, decoded. */
  function Scan(writes: Writes, seek: Bytes): (vs: seq<Version>)
    ensures forall v | v in vs :: v in writes
  {
    BeforeIsOrder();
    Sorted(FromSeek(writes, seek), Before)
  }

  function FromSeek(writes: Writes, seek: Bytes): set<Version> {
    set v | v in writes && Leq(seek, Encode(v.key, v.ts))
  }

  lemma ScanFacts(writes: Writes, seek: Bytes)
    ensures Ascending(Scan(writes, seek), Before)
    ensures forall v :: v in Scan(writes, seek) <==> v in writes && Leq(seek, Encode(v.key, v.ts))
  {
    BeforeIsOrder();
    assert forall v :: v in Scan(writes, seek) <==> v in FromSeek(writes, seek);
  }

  type Test = (Ts, WriteRecord) -> bool

  /** Walk while the key matches, and stop at the first record that passes the test. */
  function Find(writes: Writes, vs: seq<Version>, key: Key, test: Test): (r: Option<Ts>)
    requires forall v | v in vs :: v in writes
    ensures r.Some? ==> Version(key, r.value) in writes && test(r.value, writes[Version(key, r.value)])
  {
    if vs == [] || vs[0].key != key then None
    else if test(vs[0].ts, writes[vs[0]]) then Some(vs[0].ts)
    else Find(writes, vs[1..], key, test)
  }

  /** A scan for `key` that starts at timestamp `from` and runs towards older versions. */
  function Lookup(writes: Writes, key: Key, from: Ts, test: Test): (r: Option<Ts>)
    ensures r.Some? ==> Version(key, r.value) in writes && test(r.value, writes[Version(key, r.value)])
  {
    Find(writes, Scan(writes, Encode(key, from)), key, test)
  }

  // ---------- What a scan finds ----------

  predicate Matches(writes: Writes, key: Key, from: Ts, test: Test, ts: Ts) {
    ts <= from && Version(key, ts) in writes && test(ts, writes[Version(key, ts)])
  }

  ghost predicate IsNewest(writes: Writes, key: Key, from: Ts, test: Test, ts: Ts) {
    && Matches(writes, key, from, test, ts)
    && forall t: Ts | Matches(writes, key, from, test, t) :: t <= ts
  }

  /** A version of another key that lies in the scan before the version of `key` at ts. */
  predicate Intrudes(key: Key, from: Ts, v: Version, ts: Ts) {
    v.key != key && Leq(Encode(key, from), Encode(v.key, v.ts)) && Before(v, Version(key, ts))
  }

  /** The scan reaches the version at ts: no version of another key comes first. */
  ghost predicate Reaches(writes: Writes, key: Key, from: Ts, ts: Ts) {
    forall v | v in writes :: !Intrudes(key, from, v, ts)
  }

  ghost predicate Descends(vs: seq<Version>) {
    forall i, j | 0 <= i < j < |vs| && vs[i].key == vs[j].key :: vs[j].ts < vs[i].ts
  }

  /** Versions of one key are scanned newest first, whatever the other keys. */
  lemma ScanDescends(writes: Writes, seek: Bytes)
    ensures Descends(Scan(writes, seek))
  {
    hide Scan, Before;
    var vs := Scan(writes, seek);
    ScanFacts(writes, seek);
    forall i, j | 0 <= i < j < |vs| && vs[i].key == vs[j].key ensures vs[j].ts < vs[i].ts {
      assert Before(vs[i], vs[j]);
      NewestFirst(vs[i].key, vs[i].ts, vs[j].ts);
    }
  }

  /** Only versions of `key` stand before position i. */
  ghost predicate Alone(vs: seq<Version>, key: Key, i: nat)
    requires i < |vs|
  {
    forall j | 0 <= j < i :: vs[j].key == key
  }

  /** The walk stops at a position exactly when it is the newest match and only versions of the key precede it. */
  lemma {:induction false} FindExactly(writes: Writes, vs: seq<Version>, key: Key, test: Test, i: nat)
    requires (forall v | v in vs :: v in writes) && Descends(vs) && i < |vs| && vs[i].key == key
    ensures Find(writes, vs, key, test) == Some(vs[i].ts) <==>
            && Alone(vs, key, i) && test(vs[i].ts, writes[vs[i]])
            && forall v | v in vs && v.key == key && test(v.ts, writes[v]) :: v.ts <= vs[i].ts
    decreases |vs|
  {
    var first, rest := vs[0], vs[1..];
    assert vs == [first] + rest;
    if i > 0 && first.key == key && !test(first.ts, writes[first]) {
      FindExactly(writes, rest, key, test, i - 1);
      assert rest[i - 1] == vs[i];
      assert Alone(vs, key, i) <==> Alone(rest, key, i - 1);
    } else {
      assert first in vs;
      forall j | 0 <= j < |vs| && vs[j].key == key && first.key == key ensures vs[j].ts <= first.ts {}
    }
  }

  lemma AloneIsReached(writes: Writes, key: Key, from: Ts, i: nat)
    requires var vs := Scan(writes, Encode(key, from)); i < |vs| && vs[i].key == key
    ensures var vs := Scan(writes, Encode(key, from));
            Alone(vs, key, i) <==> Reaches(writes, key, from, vs[i].ts)
  {
    hide Scan, Before, Encode, Leq;
    var vs := Scan(writes, Encode(key, from));
    ScanFacts(writes, Encode(key, from));
    BeforeIsOrder();
    if Alone(vs, key, i) {
      forall v | v in writes ensures !Intrudes(key, from, v, vs[i].ts) {
        if v in vs {
          var j :| 0 <= j < |vs| && vs[j] == v;
          if i < j { NotBefore(vs[i], v); }
        }
      }
    } else {
      var j :| 0 <= j < i && vs[j].key != key;
      assert vs[j] in vs && Before(vs[j], vs[i]);
      assert Intrudes(key, from, vs[j], vs[i].ts);
    }
  }

  lemma NotBefore(a: Version, b: Version)
    requires Before(a, b)
    ensures !Before(b, a)
  {
    LessAsymmetric(Encode(a.key, a.ts), Encode(b.key, b.ts));
  }

  lemma ScanHolds(writes: Writes, key: Key, from: Ts, ts: Ts)
    ensures Version(key, ts) in Scan(writes, Encode(key, from)) <==> Version(key, ts) in writes && ts <= from
  {
    ScanFacts(writes, Encode(key, from));
    NewestFirst(key, from, ts);
    EncodeInjective(Version(key, from), Version(key, ts));
  }

  /** On any keys the byte-ordered scan stops at a record exactly when it is the newest match and no
      version of another key comes before it. */
  lemma LookupExactly(writes: Writes, key: Key, from: Ts, test: Test, ts: Ts)
    ensures Lookup(writes, key, from, test) == Some(ts)
            <==> IsNewest(writes, key, from, test, ts) && Reaches(writes, key, from, ts)
  {
    hide Scan, Encode, Intrudes;
    var vs := Scan(writes, Encode(key, from));
    ScanDescends(writes, Encode(key, from));
    forall t: Ts ensures Version(key, t) in vs <==> Version(key, t) in writes && t <= from {
      ScanHolds(writes, key, from, t);
    }
    if Version(key, ts) in vs {
      var i :| 0 <= i < |vs| && vs[i] == Version(key, ts);
      FindExactly(writes, vs, key, test, i);
      AloneIsReached(writes, key, from, i);
      if IsNewest(writes, key, from, test, ts) {
        forall v | v in vs && v.key == key && test(v.ts, writes[v]) ensures v.ts <= ts {
          assert v == Version(key, v.ts) && Matches(writes, key, from, test, v.ts);
        }
      }
      forall t: Ts | Matches(writes, key, from, test, t) ensures Version(key, t) in vs && Version(key, t).key == key {}
    } else {
      FindInScan(writes, vs, key, test);
    }
  }

  lemma {:induction false} FindInScan(writes: Writes, vs: seq<Version>, key: Key, test: Test)
    requires forall v | v in vs :: v in writes
    ensures Find(writes, vs, key, test).Some? ==> Version(key, Find(writes, vs, key, test).value) in vs
    decreases |vs|
  {
    if vs != [] && vs[0].key == key {
      assert vs[0] == Version(key, vs[0].ts) && vs == [vs[0]] + vs[1..];
      FindInScan(writes, vs[1..], key, test);
    }
  }

  // ---------- On separate keys ----------

  ghost predicate KeysWithin(writes: Writes, keys: set<Key>) {
    forall v | v in writes :: v.key in keys
  }

  /** No version of a parted key lies between two versions of `key`. */
  lemma NothingBetween(key: Key, from: Ts, foreign: Version, ts: Ts)
    requires Parted(foreign.key, key) && foreign.key != key
    requires Leq(Encode(key, from), Encode(foreign.key, foreign.ts))
    ensures !Before(foreign, Version(key, ts))
  {
    KeyOrderDecides(foreign, Version(key, ts));
    KeyOrderDecides(Version(key, from), foreign);
    EncodeInjective(Version(key, from), foreign);
    LessTotal(key, foreign.key);
    if Less(foreign.key, key) { LessAsymmetric(foreign.key, key); }
  }

  lemma SeparateReaches(writes: Writes, keys: set<Key>, key: Key, from: Ts, ts: Ts)
    requires Separate(keys) && key in keys && KeysWithin(writes, keys)
    ensures Reaches(writes, key, from, ts)
  {
    hide Encode, Before, Leq;
    forall v | v in writes ensures !Intrudes(key, from, v, ts) {
      if v.key != key && Leq(Encode(key, from), Encode(v.key, v.ts)) { NothingBetween(key, from, v, ts); }
    }
  }

  /** A match that is reached has a newest one above it. */
  lemma {:induction false} NewestMatch(writes: Writes, key: Key, from: Ts, test: Test, ts: Ts) returns (r: Ts)
    requires Matches(writes, key, from, test, ts)
    ensures IsNewest(writes, key, from, test, r)
    decreases from - ts
  {
    if t: Ts :| Matches(writes, key, from, test, t) && t > ts {
      r := NewestMatch(writes, key, from, test, t);
    } else {
      r := ts;
    }
  }

  /** On separate keys the byte-ordered scan finds exactly the newest matching record. */
  lemma LookupIsNewest(writes: Writes, keys: set<Key>, key: Key, from: Ts, test: Test)
    requires Separate(keys) && key in keys && KeysWithin(writes, keys)
    ensures forall ts: Ts :: Lookup(writes, key, from, test) == Some(ts) <==> IsNewest(writes, key, from, test, ts)
    ensures Lookup(writes, key, from, test) == None <==> forall ts: Ts :: !Matches(writes, key, from, test, ts)
  {
    hide Lookup, Separate, Reaches;
    forall ts: Ts ensures Lookup(writes, key, from, test) == Some(ts) <==> IsNewest(writes, key, from, test, ts) {
      LookupExactly(writes, key, from, test, ts);
      SeparateReaches(writes, keys, key, from, ts);
    }
    if ts: Ts :| Matches(writes, key, from, test, ts) {
      var r := NewestMatch(writes, key, from, test, ts);
    }
  }

  ghost predicate FindsNewest(writes: Writes, key: Key, from: Ts, test: Test, ts: Ts) {
    Lookup(writes, key, from, test) == Some(ts) <==> IsNewest(writes, key, from, test, ts)
  }

  /** Every scan over these keys, in whatever store, finds the newest match. */
  ghost predicate ScansRight(keys: set<Key>) {
    forall writes: Writes, key: Key, from: Ts, test: Test, ts: Ts | KeysWithin(writes, keys) && key in keys ::
      FindsNewest(writes, key, from, test, ts)
  }

  /** Scans are right in every store over a set of keys exactly when none of them is a prefix of
      another, unless followed there by eight bytes 0xff. */
  lemma ScansRightExactly(keys: set<Key>)
    ensures ScansRight(keys) <==> Separate(keys)
  {
    hide Lookup, Parted, FindsNewest;
    if Separate(keys) {
      forall writes: Writes, key: Key, from: Ts, test: Test, ts: Ts | KeysWithin(writes, keys) && key in keys
        ensures FindsNewest(writes, key, from, test, ts)
      {
        SeparateFinds(writes, keys, key, from, test, ts);
      }
    } else {
      var a, b :| a in keys && b in keys && a != b && !Parted(a, b);
      var k, x := PrefixOf(a, b);
      var writes := Hiding(k, x);
      HidesOldest(k, x);
      assert !FindsNewest(writes, k, MAX_TS, (_, _) => true, 0);
    }
  }

  lemma SeparateFinds(writes: Writes, keys: set<Key>, key: Key, from: Ts, test: Test, ts: Ts)
    requires Separate(keys) && KeysWithin(writes, keys) && key in keys
    ensures FindsNewest(writes, key, from, test, ts)
  {
    hide Lookup;
    LookupIsNewest(writes, keys, key, from, test);
  }

  lemma PrefixOf(a: Key, b: Key) returns (k: Key, x: Bytes)
    requires a != b && !Parted(a, b)
    ensures (k == a && k + x == b) || (k == b && k + x == a)
    ensures x != [] && !IsPrefix(ONES, x)
  {
    if !EndsBefore(a, b) {
      k, x := a, b[|a|..];
      assert b == b[..|a|] + x;
    } else {
      k, x := b, a[|b|..];
      assert a == a[..|b|] + x;
    }
  }

  /** The oldest version of a key and the newest of its extension. */
  function Hiding(k: Key, x: Bytes): Writes {
    map[Version(k, 0) := WriteRecord(0, Put), Version(k + x, MAX_TS) := WriteRecord(0, Put)]
  }

  lemma HidesOldest(k: Key, x: Bytes)
    requires x != [] && !IsPrefix(ONES, x)
    ensures !FindsNewest(Hiding(k, x), k, MAX_TS, (_, _) => true, 0)
  {
    hide Lookup, Encode, Before;
    var v := Version(k + x, MAX_TS);
    ExtensionIntrudes(k, x);
    assert k + x != k;
    assert v in Hiding(k, x) && Intrudes(k, MAX_TS, v, 0);
    LookupExactly(Hiding(k, x), k, MAX_TS, (_, _) => true, 0);
    assert IsNewest(Hiding(k, x), k, MAX_TS, (_, _) => true, 0);
  }

  /** Any version of the key extended by a zero byte hides the key from every scan for its newest
      records: such a scan finds nothing that lies below 2^56. */
  lemma ExtensionHides(writes: Writes, key: Key, y: Bytes, t: Ts, test: Test)
    requires Version(key + ([0] + y), t) in writes
    requires forall ts: Ts | Version(key, ts) in writes :: ts < TWO_56
    ensures Lookup(writes, key, MAX_TS, test) == None
  {
    hide Lookup, Encode, Before;
    var v := Version(key + ([0] + y), t);
    forall ts: Ts ensures Lookup(writes, key, MAX_TS, test) != Some(ts) {
      LookupExactly(writes, key, MAX_TS, test, ts);
      if Version(key, ts) in writes {
        ZeroExtensionIntrudes(key, y, t, ts);
        assert Intrudes(key, MAX_TS, v, ts);
      }
    }
  }

  // ---------- Snapshot read (storage/mvcc/reader.rs) ----------

  datatype ReadError = KeyIsLocked(primary: Key, lockTs: Ts) | CorruptedState

  type ReadResult = Result<Option<Value>, ReadError>

  /** A committed version visible at the read timestamp. */
  function Visible(readTs: Ts): Test {
    (ts: Ts, r: WriteRecord) => ts <= readTs && r.op != Rollback
  }

  /** The value a commit record denotes. */
  function ValueOf(s: Store, key: Key, commitTs: Option<Ts>): ReadResult
    requires commitTs.Some? ==> Version(key, commitTs.value) in s.writes
  {
    match commitTs
    case None => Ok(None)
    case Some(ts) =>
      var r := s.writes[Version(key, ts)];
      if r.op == Delete then Ok(None)
      else if Version(key, r.start) in s.data then Ok(Some(s.data[Version(key, r.start)]))
      else Err(CorruptedState)
  }

  function ReadVersion(s: Store, key: Key, readTs: Ts): ReadResult {
    ValueOf(s, key, Lookup(s.writes, key, readTs, Visible(readTs)))
  }

  function Read(s: Store, key: Key, readTs: Ts): ReadResult {
    if key in s.locks && s.locks[key].start <= readTs
    then Err(KeyIsLocked(s.locks[key].primary, s.locks[key].start))
    else ReadVersion(s, key, readTs)
  }

  /** The record is the newest commit on the key at or below the read timestamp. */
  ghost predicate NewestCommit(writes: Writes, key: Key, readTs: Ts, ts: Ts) {
    && ts <= readTs && Version(key, ts) in writes && writes[Version(key, ts)].op != Rollback
    && forall t: Ts | ts < t <= readTs && Version(key, t) in writes :: writes[Version(key, t)].op == Rollback
  }

  lemma NewestCommitMatches(writes: Writes, key: Key, readTs: Ts, ts: Ts)
    ensures NewestCommit(writes, key, readTs, ts) <==> IsNewest(writes, key, readTs, Visible(readTs), ts)
  {
    var test := Visible(readTs);
    if NewestCommit(writes, key, readTs, ts) {
      forall t: Ts | Matches(writes, key, readTs, test, t) ensures t <= ts {}
    }
    if IsNewest(writes, key, readTs, test, ts) {
      forall t: Ts | ts < t <= readTs && Version(key, t) in writes ensures writes[Version(key, t)].op == Rollback {
        assert !Matches(writes, key, readTs, test, t);
      }
    }
  }

  /** On any keys, a read answers what the newest commit at or below its timestamp denotes exactly when
      the scan reaches it, and nothing otherwise. */
  lemma ReadExactly(s: Store, key: Key, readTs: Ts)
    ensures forall ts: Ts | NewestCommit(s.writes, key, readTs, ts) ::
              ReadVersion(s, key, readTs)
              == if Reaches(s.writes, key, readTs, ts) then ValueOf(s, key, Some(ts)) else Ok(None)
    ensures (forall ts: Ts :: !NewestCommit(s.writes, key, readTs, ts)) ==> ReadVersion(s, key, readTs) == Ok(None)
  {
    hide Lookup, Reaches, NewestCommit;
    forall ts: Ts
      ensures Lookup(s.writes, key, readTs, Visible(readTs)) == Some(ts)
              <==> NewestCommit(s.writes, key, readTs, ts) && Reaches(s.writes, key, readTs, ts)
    {
      LookupExactly(s.writes, key, readTs, Visible(readTs), ts);
      NewestCommitMatches(s.writes, key, readTs, ts);
    }
    forall a: Ts, b: Ts | NewestCommit(s.writes, key, readTs, a) && NewestCommit(s.writes, key, readTs, b)
      ensures a == b
    {
      NewestCommitMatches(s.writes, key, readTs, a);
      NewestCommitMatches(s.writes, key, readTs, b);
    }
    NewestCommitStored(s.writes, key, readTs);
  }

  lemma NewestCommitStored(writes: Writes, key: Key, readTs: Ts)
    ensures forall ts: Ts | NewestCommit(writes, key, readTs, ts) :: Version(key, ts) in writes
  {
  }

  /** On separate keys it always does. */
  lemma ReadIsNewestCommit(s: Store, keys: set<Key>, key: Key, readTs: Ts)
    requires Separate(keys) && key in keys && KeysWithin(s.writes, keys)
    ensures forall ts: Ts | NewestCommit(s.writes, key, readTs, ts) ::
              ReadVersion(s, key, readTs) == ValueOf(s, key, Some(ts))
    ensures (forall ts: Ts :: !NewestCommit(s.writes, key, readTs, ts)) ==> ReadVersion(s, key, readTs) == Ok(None)
  {
    hide ReadVersion, Reaches, Separate, KeysWithin;
    ReadExactly(s, key, readTs);
    forall ts: Ts | NewestCommit(s.writes, key, readTs, ts) ensures Reaches(s.writes, key, readTs, ts) {
      SeparateReaches(s.writes, keys, key, readTs, ts);
    }
  }
}
