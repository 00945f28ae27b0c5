/** Garbage collection of versions below a safe point (storage/engine.rs). */
module Gc {
  import opened Bytes
  import opened Ordered
  import opened Wrappers
  import opened KeyEncoder
  import opened Records
  import opened Store
  import opened Txn
  import opened Protocol
  import opened Resolver

  /** The walk over the whole write partition: of each run of versions of one key, everything after
      the first one below the safe point is collected. */
  function Collect(vs: seq<Version>, safePoint: Ts, last: Option<Key>, seen: bool): seq<Version> {
    if vs == [] then []
    else
      var seenHere := seen && last == Some(vs[0].key);
      (if vs[0].ts < safePoint && seenHere then [vs[0]] else [])
      + Collect(vs[1..], safePoint, Some(vs[0].key), seenHere || vs[0].ts < safePoint)
  }

  function Collected(writes: Writes, safePoint: Ts): seq<Version> {
    Collect(Scan(writes, []), safePoint, None, false)
  }

  function WithoutVersions(s: Store, gone: seq<Version>): Store
    requires forall v | v in gone :: v in s.writes
  {
    s.(writes := s.writes - (set v | v in gone),
       data := s.data - (set v | v in gone :: Version(v.key, s.writes[v].start)))
  }

  // ---------- Which versions are collected ----------

  /** Another version of the key, newer and still below the safe point, is stored. */
  ghost predicate Shadowed(writes: Writes, v: Version, safePoint: Ts) {
    v in writes && exists ts: Ts :: v.ts < ts < safePoint && Version(v.key, ts) in writes
  }

  /** Every position is collected exactly when the one before it has the same key and is already
      below the safe point. */
  ghost predicate Follows(vs: seq<Version>, i: nat, safePoint: Ts)
    requires i < |vs|
  {
    i > 0 && vs[i - 1].key == vs[i].key && vs[i - 1].ts < safePoint
  }

  ghost predicate FollowsFrom(vs: seq<Version>, i: nat, safePoint: Ts, v: Version) {
    exists j :: i <= j < |vs| && vs[j] == v && Follows(vs, j, safePoint)
  }

  lemma {:induction false} CollectFrom(vs: seq<Version>, i: nat, safePoint: Ts, seen: bool, v: Version)
    requires i <= |vs| && Descends(vs)
    requires i > 0 ==> (seen <==> vs[i - 1].ts < safePoint)
    requires i == 0 ==> !seen
    ensures var last := if i == 0 then None else Some(vs[i - 1].key);
            v in Collect(vs[i..], safePoint, last, seen) <==> FollowsFrom(vs, i, safePoint, v)
    decreases |vs| - i
  {
    if i < |vs| {
      assert vs[i..][1..] == vs[i + 1..];
      var seenHere := i > 0 && seen && vs[i - 1].key == vs[i].key;
      assert Follows(vs, i, safePoint) <==> vs[i].ts < safePoint && seenHere;
      assert FollowsFrom(vs, i, safePoint, v)
             <==> (vs[i] == v && Follows(vs, i, safePoint)) || FollowsFrom(vs, i + 1, safePoint, v);
      hide FollowsFrom, Follows, Descends;
      CollectFrom(vs, i + 1, safePoint, seenHere || vs[i].ts < safePoint, v);
    }
  }

  /** Everything collected is shadowed, whatever the keys. */
  lemma CollectedAreShadowed(writes: Writes, safePoint: Ts, v: Version)
    requires v in Collected(writes, safePoint)
    ensures Shadowed(writes, v, safePoint)
  {
    hide Scan, Collect;
    var vs := Scan(writes, []);
    ScanDescends(writes, []);
    CollectFrom(vs, 0, safePoint, false, v);
    assert vs[0..] == vs;
    var j :| 0 <= j < |vs| && vs[j] == v && Follows(vs, j, safePoint);
    assert vs[j - 1] in vs && vs[j] in vs;
    assert Version(v.key, vs[j - 1].ts) in writes;
  }

  lemma EmptyFirst(e: Bytes)
    ensures Leq([], e)
  {
  }

  /** On separate keys, everything shadowed is collected. */
  lemma ShadowedAreCollected(writes: Writes, keys: set<Key>, safePoint: Ts, v: Version)
    requires Separate(keys) && KeysWithin(writes, keys) && Shadowed(writes, v, safePoint)
    ensures v in Collected(writes, safePoint)
  {
    hide Scan, Collect, Encode, Less;
    var vs := Scan(writes, []);
    ScanFacts(writes, []);
    ScanDescends(writes, []);
    var ts: Ts :| v.ts < ts < safePoint && Version(v.key, ts) in writes;
    EmptyFirst(Encode(v.key, v.ts));
    EmptyFirst(Encode(v.key, ts));
    var j :| 0 <= j < |vs| && vs[j] == v;
    var i :| 0 <= i < |vs| && vs[i] == Version(v.key, ts);
    assert i < j;
    if i < j - 1 && vs[j - 1].key != v.key {
      assert vs[j - 1] in vs && vs[j - 1].key in keys;
      NothingBetween(v.key, ts, vs[j - 1], v.ts);
    }
    assert Follows(vs, j, safePoint);
    CollectFrom(vs, 0, safePoint, false, v);
    assert vs[0..] == vs;
  }

  lemma {:induction false} CollectSubset(vs: seq<Version>, safePoint: Ts, last: Option<Key>, seen: bool)
    ensures forall v | v in Collect(vs, safePoint, last, seen) :: v in vs
    decreases |vs|
  {
    if vs != [] {
      var seenHere := seen && last == Some(vs[0].key);
      CollectSubset(vs[1..], safePoint, Some(vs[0].key), seenHere || vs[0].ts < safePoint);
    }
  }

  function AfterGc(s: Store, safePoint: Ts): Store {
    CollectSubset(Scan(s.writes, []), safePoint, None, false);
    WithoutVersions(s, Collected(s.writes, safePoint))
  }

  /** What is collected is collected once, so the count a collection answers is the number of records gone. */
  lemma GcCounts(s: Store, safePoint: Ts)
    ensures |Collected(s.writes, safePoint)| == |s.writes| - |AfterGc(s, safePoint).writes|
  {
    hide Scan, Collect;
    var vs, gone := Scan(s.writes, []), Collected(s.writes, safePoint);
    ScanDescends(s.writes, []);
    ScanFacts(s.writes, []);
    CollectSubset(vs, safePoint, None, false);
    CollectOnce(vs, safePoint, None, false);
    CountOnce(gone);
    var rest := AfterGc(s, safePoint).writes;
    assert rest.Keys == s.writes.Keys - set v | v in gone;
    assert (set v | v in gone) <= s.writes.Keys;
    assert |rest.Keys| == |rest| && |s.writes.Keys| == |s.writes|;
  }

  ghost predicate NoRepeats(vs: seq<Version>) {
    forall i, j | 0 <= i < j < |vs| :: vs[i] != vs[j]
  }

  lemma {:induction false} CollectOnce(vs: seq<Version>, safePoint: Ts, last: Option<Key>, seen: bool)
    requires Descends(vs)
    ensures NoRepeats(Collect(vs, safePoint, last, seen))
    decreases |vs|
  {
    if vs != [] {
      var seenHere := seen && last == Some(vs[0].key);
      var rest := Collect(vs[1..], safePoint, Some(vs[0].key), seenHere || vs[0].ts < safePoint);
      CollectSubset(vs[1..], safePoint, Some(vs[0].key), seenHere || vs[0].ts < safePoint);
      CollectOnce(vs[1..], safePoint, Some(vs[0].key), seenHere || vs[0].ts < safePoint);
      forall i | 0 <= i < |rest| ensures rest[i] != vs[0] { assert rest[i] in vs[1..]; }
    }
  }

  lemma {:induction false} CountOnce(vs: seq<Version>)
    requires NoRepeats(vs)
    ensures |set v | v in vs| == |vs|
    decreases |vs|
  {
    if vs != [] {
      CountOnce(vs[1..]);
      assert (set v | v in vs) == {vs[0]} + set v | v in vs[1..];
    }
  }

  // ---------- What the collection does to the store ----------

  ghost predicate ValueCollected(writes: Writes, d: Version, safePoint: Ts) {
    exists ts: Ts :: Shadowed(writes, Version(d.key, ts), safePoint) && writes[Version(d.key, ts)].start == d.ts
  }

  /** b is a without its shadowed versions and without the values they refer to. */
  ghost predicate Collects(a: Store, b: Store, safePoint: Ts) {
    && b.locks == a.locks
    && (forall v :: v in b.writes <==> v in a.writes && !Shadowed(a.writes, v, safePoint))
    && (forall v | v in b.writes :: b.writes[v] == a.writes[v])
    && (forall d :: d in b.data <==> d in a.data && !ValueCollected(a.writes, d, safePoint))
    && (forall d | d in b.data :: b.data[d] == a.data[d])
  }

  lemma GcCollects(s: Store, keys: set<Key>, safePoint: Ts)
    requires Separate(keys) && KeysWithin(s.writes, keys)
    ensures Collects(s, AfterGc(s, safePoint), safePoint)
  {
    hide Collected;
    var gone, b := Collected(s.writes, safePoint), AfterGc(s, safePoint);
    forall v ensures v in gone <==> Shadowed(s.writes, v, safePoint) {
      if v in gone { CollectedAreShadowed(s.writes, safePoint, v); }
      if Shadowed(s.writes, v, safePoint) { ShadowedAreCollected(s.writes, keys, safePoint, v); }
    }
    forall d ensures d in b.data <==> d in s.data && !ValueCollected(s.writes, d, safePoint) {
      if ValueCollected(s.writes, d, safePoint) {
        var ts: Ts :| Shadowed(s.writes, Version(d.key, ts), safePoint) && s.writes[Version(d.key, ts)].start == d.ts;
        assert Version(d.key, ts) in gone;
      }
      if d in s.data && d !in b.data {
        var v :| v in gone && d == Version(v.key, s.writes[v].start);
        assert v == Version(d.key, v.ts);
      }
    }
  }

  // ---------- Reads ----------

  /** The newest record below the safe point, commit or rollback. */
  ghost predicate NewestRecordBelow(writes: Writes, key: Key, safePoint: Ts, ts: Ts) {
    && ts < safePoint && Version(key, ts) in writes
    && forall t: Ts | ts < t < safePoint :: Version(key, t) !in writes
  }

  /** If a rollback is the one record kept below the safe point, no value lies beneath it. */
  ghost predicate NothingBeneathRollback(writes: Writes, key: Key, safePoint: Ts) {
    forall r: Ts, c: Ts | && NewestRecordBelow(writes, key, safePoint, r) && writes[Version(key, r)].op == Rollback
                          && NewestCommit(writes, key, safePoint - 1, c) :: writes[Version(key, c)].op == Delete
  }

  /** No kept Put shares its transaction with a collected record. */
  ghost predicate KeptValuesKept(s: Store, key: Key, safePoint: Ts) {
    forall ts: Ts | && Version(key, ts) in s.writes && s.writes[Version(key, ts)].op == Put
                    && !Shadowed(s.writes, Version(key, ts), safePoint)
                    && Version(key, s.writes[Version(key, ts)].start) in s.data ::
      !ValueCollected(s.writes, Version(key, s.writes[Version(key, ts)].start), safePoint)
  }

  ghost predicate GcSafe(s: Store, key: Key, safePoint: Ts) {
    safePoint > 0 ==> NothingBeneathRollback(s.writes, key, safePoint) && KeptValuesKept(s, key, safePoint)
  }

  /** What a commit denotes does not change when it is kept and its value is. */
  lemma KeptValue(a: Store, b: Store, key: Key, safePoint: Ts, ts: Ts)
    requires Collects(a, b, safePoint) && Version(key, ts) in a.writes
    requires !Shadowed(a.writes, Version(key, ts), safePoint)
    requires a.writes[Version(key, ts)].op != Rollback
    ensures Version(key, ts) in b.writes
    ensures ValueOf(b, key, Some(ts)) == ValueOf(a, key, Some(ts))
            <==> (a.writes[Version(key, ts)].op == Put && Version(key, a.writes[Version(key, ts)].start) in a.data
                  ==> !ValueCollected(a.writes, Version(key, a.writes[Version(key, ts)].start), safePoint))
  {
    hide ValueCollected;
  }

  lemma {:induction false} NewestRecordExists(writes: Writes, key: Key, safePoint: Ts, ts: Ts) returns (r: Ts)
    requires ts < safePoint && Version(key, ts) in writes
    ensures ts <= r && NewestRecordBelow(writes, key, safePoint, r)
    decreases safePoint - ts
  {
    if t: Ts :| ts < t < safePoint && Version(key, t) in writes {
      r := NewestRecordExists(writes, key, safePoint, t);
    } else {
      r := ts;
    }
  }

  /** A newest commit that is kept is still the newest. */
  lemma KeptIsNewest(a: Store, b: Store, key: Key, safePoint: Ts, readTs: Ts, ts: Ts)
    requires Collects(a, b, safePoint) && NewestCommit(a.writes, key, readTs, ts)
    requires !Shadowed(a.writes, Version(key, ts), safePoint)
    ensures NewestCommit(b.writes, key, readTs, ts)
  {
    hide ValueCollected, Shadowed;
  }

  /** Beneath a kept rollback nothing is left to read. */
  lemma NothingLeft(a: Store, b: Store, key: Key, safePoint: Ts, readTs: Ts, r: Ts)
    requires Collects(a, b, safePoint) && NewestRecordBelow(a.writes, key, safePoint, r)
    requires forall ts: Ts | r <= ts <= readTs && Version(key, ts) in a.writes ::
               a.writes[Version(key, ts)].op == Rollback
    ensures forall ts: Ts :: !NewestCommit(b.writes, key, readTs, ts)
  {
    hide ValueCollected;
    forall ts: Ts | ts < r && Version(key, ts) in a.writes ensures Shadowed(a.writes, Version(key, ts), safePoint) {
      assert ts < r < safePoint && Version(key, r) in a.writes;
    }
  }

  lemma ReadSurvives(a: Store, b: Store, keys: set<Key>, key: Key, safePoint: Ts, readTs: Ts)
    requires Separate(keys) && key in keys && KeysWithin(a.writes, keys)
    requires Collects(a, b, safePoint) && GcSafe(a, key, safePoint) && readTs + 1 >= safePoint
    ensures ReadVersion(b, key, readTs) == ReadVersion(a, key, readTs)
  {
    hide ReadVersion, Collects, NewestCommit, GcSafe, ValueOf, Separate;
    CollectsWithin(a, b, keys, safePoint);
    ReadIsNewestCommit(a, keys, key, readTs);
    ReadIsNewestCommit(b, keys, key, readTs);
    if ts: Ts :| NewestCommit(a.writes, key, readTs, ts) {
      CommitSurvives(a, b, key, safePoint, readTs, ts);
    } else {
      NoNewCommit(a, b, key, safePoint, readTs);
    }
  }

  lemma CollectsWithin(a: Store, b: Store, keys: set<Key>, safePoint: Ts)
    requires Collects(a, b, safePoint) && KeysWithin(a.writes, keys)
    ensures KeysWithin(b.writes, keys)
  {
  }

  lemma NoNewCommit(a: Store, b: Store, key: Key, safePoint: Ts, readTs: Ts)
    requires Collects(a, b, safePoint) && forall ts: Ts :: !NewestCommit(a.writes, key, readTs, ts)
    ensures forall ts: Ts :: !NewestCommit(b.writes, key, readTs, ts)
  {
    hide Shadowed, ValueCollected;
    forall ts: Ts ensures !NewestCommit(b.writes, key, readTs, ts) {
      if Version(key, ts) in a.writes && ts <= readTs && a.writes[Version(key, ts)].op != Rollback {
        var c := NewestCommitExists(a.writes, key, readTs, ts);
      }
    }
  }

  /** The newest visible commit is kept with its value, or it is a delete under a kept rollback. */
  lemma CommitSurvives(a: Store, b: Store, key: Key, safePoint: Ts, readTs: Ts, ts: Ts)
    requires Collects(a, b, safePoint) && GcSafe(a, key, safePoint) && readTs + 1 >= safePoint
    requires NewestCommit(a.writes, key, readTs, ts)
    ensures || (NewestCommit(b.writes, key, readTs, ts) && ValueOf(b, key, Some(ts)) == ValueOf(a, key, Some(ts)))
            || (ValueOf(a, key, Some(ts)) == Ok(None) && forall t: Ts :: !NewestCommit(b.writes, key, readTs, t))
  {
    hide ValueCollected, Collects;
    if Shadowed(a.writes, Version(key, ts), safePoint) {
      var r := NewestRecordExists(a.writes, key, safePoint, ts);
      assert r > ts;
      NothingLeft(a, b, key, safePoint, readTs, r);
      assert NewestCommit(a.writes, key, safePoint - 1, ts);
    } else {
      KeptIsNewest(a, b, key, safePoint, readTs, ts);
      NoneCollectedAtZero(a.writes, Version(key, a.writes[Version(key, ts)].start));
      KeptValue(a, b, key, safePoint, ts);
    }
  }

  lemma NoneCollectedAtZero(writes: Writes, d: Version)
    ensures !ValueCollected(writes, d, 0)
  {
  }

  lemma {:induction false} NewestCommitExists(writes: Writes, key: Key, readTs: Ts, ts: Ts) returns (c: Ts)
    requires ts <= readTs && Version(key, ts) in writes && writes[Version(key, ts)].op != Rollback
    ensures NewestCommit(writes, key, readTs, c)
    decreases readTs - ts
  {
    if t: Ts :| ts < t <= readTs && Version(key, t) in writes && writes[Version(key, t)].op != Rollback {
      c := NewestCommitExists(writes, key, readTs, t);
    } else {
      c := ts;
    }
  }

  lemma UnsafeReadBeneath(a: Store, b: Store, keys: set<Key>, key: Key, safePoint: Ts, r: Ts, c: Ts)
    requires Separate(keys) && key in keys && KeysWithin(a.writes, keys) && Collects(a, b, safePoint) && safePoint > 0
    requires NewestRecordBelow(a.writes, key, safePoint, r) && a.writes[Version(key, r)].op == Rollback
    requires NewestCommit(a.writes, key, safePoint - 1, c) && a.writes[Version(key, c)].op == Put
    ensures ReadVersion(b, key, safePoint - 1) != ReadVersion(a, key, safePoint - 1)
  {
    hide ReadVersion, ValueCollected, Shadowed, Separate;
    NothingLeft(a, b, key, safePoint, safePoint - 1, r);
    assert KeysWithin(b.writes, keys);
    ReadIsNewestCommit(b, keys, key, safePoint - 1);
    ReadIsNewestCommit(a, keys, key, safePoint - 1);
  }

  lemma UnsafeReadKept(a: Store, b: Store, keys: set<Key>, key: Key, safePoint: Ts, ts: Ts)
    requires Separate(keys) && key in keys && KeysWithin(a.writes, keys) && Collects(a, b, safePoint) && safePoint > 0
    requires Version(key, ts) in a.writes && a.writes[Version(key, ts)].op == Put
    requires !Shadowed(a.writes, Version(key, ts), safePoint)
    requires var d := Version(key, a.writes[Version(key, ts)].start);
             d in a.data && ValueCollected(a.writes, d, safePoint)
    ensures var readTs := if ts < safePoint then safePoint - 1 else ts;
            ReadVersion(b, key, readTs) != ReadVersion(a, key, readTs)
  {
    hide ReadVersion, ValueCollected;
    var readTs := if ts < safePoint then safePoint - 1 else ts;
    ReadIsNewestCommit(a, keys, key, readTs);
    ReadIsNewestCommit(b, keys, key, readTs);
    assert NewestCommit(a.writes, key, readTs, ts);
    KeptIsNewest(a, b, key, safePoint, readTs, ts);
    KeptValue(a, b, key, safePoint, ts);
  }

  /** All reads from just below the safe point on answer as before exactly when the key is safe to
      collect: a kept rollback covers no value, and no kept Put shares its transaction with a
      collected record. */
  lemma GcPreservesReadsExactly(s: Store, keys: set<Key>, key: Key, safePoint: Ts)
    requires Separate(keys) && key in keys && KeysWithin(s.writes, keys)
    ensures (forall readTs: Ts | readTs + 1 >= safePoint ::
               ReadVersion(AfterGc(s, safePoint), key, readTs) == ReadVersion(s, key, readTs))
            <==> GcSafe(s, key, safePoint)
  {
    hide AfterGc, Collects, ValueCollected, Shadowed, ReadVersion;
    var b := AfterGc(s, safePoint);
    GcCollects(s, keys, safePoint);
    if GcSafe(s, key, safePoint) {
      forall readTs: Ts | readTs + 1 >= safePoint ensures ReadVersion(b, key, readTs) == ReadVersion(s, key, readTs) {
        ReadSurvives(s, b, keys, key, safePoint, readTs);
      }
    } else if !NothingBeneathRollback(s.writes, key, safePoint) {
      var r: Ts, c: Ts :| && NewestRecordBelow(s.writes, key, safePoint, r) && s.writes[Version(key, r)].op == Rollback
                          && NewestCommit(s.writes, key, safePoint - 1, c) && s.writes[Version(key, c)].op != Delete;
      UnsafeReadBeneath(s, b, keys, key, safePoint, r, c);
    } else {
      var ts: Ts :| && Version(key, ts) in s.writes && s.writes[Version(key, ts)].op == Put
                    && !Shadowed(s.writes, Version(key, ts), safePoint)
                    && Version(key, s.writes[Version(key, ts)].start) in s.data
                    && ValueCollected(s.writes, Version(key, s.writes[Version(key, ts)].start), safePoint);
      UnsafeReadKept(s, b, keys, key, safePoint, ts);
    }
  }

  // ---------- On stores the protocol reaches ----------

  lemma GcKeepsSound(w: World, s: Store, safePoint: Ts)
    requires Ready(w, s)
    ensures Ready(w, AfterGc(s, safePoint)) && Collects(s, AfterGc(s, safePoint), safePoint)
  {
    hide AfterGc, Shadowed, ValueCollected;
    SoundWithin(w, s);
    GcCollects(s, w.keys, safePoint);
    var b := AfterGc(s, safePoint);
    forall v | v in b.writes ensures RecordOk(w, v, b.writes[v]) { assert RecordOk(w, v, s.writes[v]); }
    forall k | k in b.locks ensures LockOk(w, b, k, b.locks[k]) { assert LockOk(w, s, k, s.locks[k]); }
  }

  /** With no rollback as the newest record below the safe point, and no transaction both committed
      and rolled back on the key, every read from just below the safe point on is unchanged. */
  lemma GcPreservesReads(w: World, s: Store, safePoint: Ts, key: Key, readTs: Ts)
    requires Ready(w, s) && key in w.keys && readTs + 1 >= safePoint
    requires forall r: Ts | NewestRecordBelow(s.writes, key, safePoint, r) :: s.writes[Version(key, r)].op != Rollback
    requires forall t: Ts :: !(HasCommit(w, s, key, t) && HasRollback(s, key, t))
    ensures Read(AfterGc(s, safePoint), key, readTs) == Read(s, key, readTs)
  {
    hide AfterGc, ReadVersion, Shadowed, ValueCollected, Separate, Distinct, Sound, HasCommit, HasRollback;
    SoundWithin(w, s);
    forall ts: Ts | Version(key, ts) in s.writes && s.writes[Version(key, ts)].op == Put
                    && !Shadowed(s.writes, Version(key, ts), safePoint)
      ensures !ValueCollected(s.writes, Version(key, s.writes[Version(key, ts)].start), safePoint)
    {
      KeptTransaction(w, s, key, safePoint, ts);
    }
    GcCollects(s, w.keys, safePoint);
    ReadSurvives(s, AfterGc(s, safePoint), w.keys, key, safePoint, readTs);
  }

  lemma KeptTransaction(w: World, s: Store, key: Key, safePoint: Ts, ts: Ts)
    requires Ready(w, s) && Version(key, ts) in s.writes && s.writes[Version(key, ts)].op == Put
    requires !Shadowed(s.writes, Version(key, ts), safePoint)
    requires var t := s.writes[Version(key, ts)].start; !(HasCommit(w, s, key, t) && HasRollback(s, key, t))
    ensures !ValueCollected(s.writes, Version(key, s.writes[Version(key, ts)].start), safePoint)
  {
    hide ValueCollected;
    var d := Version(key, s.writes[Version(key, ts)].start);
    RecordKnown(w, s, Version(key, ts));
    if ValueCollected(s.writes, d, safePoint) {
      CollectedIsRecorded(w, s, d, safePoint);
    }
  }

  /** A collected value belongs to a transaction with a collected record on the key. */
  lemma CollectedIsRecorded(w: World, s: Store, d: Version, safePoint: Ts)
    requires Ready(w, s) && ValueCollected(s.writes, d, safePoint)
    ensures d.ts in w.txns
    ensures || (HasCommit(w, s, d.key, d.ts) && Shadowed(s.writes, Version(d.key, w.txns[d.ts].commitTs), safePoint))
            || (HasRollback(s, d.key, d.ts) && Shadowed(s.writes, d, safePoint))
  {
    hide ValueCollected;
    var u := CollectedRecord(s.writes, d, safePoint);
    RecordKnown(w, s, Version(d.key, u));
  }

  lemma CollectedRecord(writes: Writes, d: Version, safePoint: Ts) returns (ts: Ts)
    requires ValueCollected(writes, d, safePoint)
    ensures Shadowed(writes, Version(d.key, ts), safePoint) && writes[Version(d.key, ts)].start == d.ts
  {
    ts :| Shadowed(writes, Version(d.key, ts), safePoint) && writes[Version(d.key, ts)].start == d.ts;
  }

  /** The value under a live lock is never collected. */
  lemma GcKeepsLockedValues(w: World, s: Store, safePoint: Ts, key: Key)
    requires Ready(w, s) && key in s.locks
    ensures var d := Version(key, s.locks[key].start);
            var b := AfterGc(s, safePoint);
            (d in b.data <==> d in s.data) && (d in s.data ==> b.data[d] == s.data[d])
  {
    hide AfterGc, ValueCollected, Shadowed, Ready;
    GcKeepsSound(w, s, safePoint);
    LockedNotCollected(w, s, safePoint, key);
  }

  lemma LockedNotCollected(w: World, s: Store, safePoint: Ts, key: Key)
    requires Ready(w, s) && key in s.locks
    ensures !ValueCollected(s.writes, Version(key, s.locks[key].start), safePoint)
  {
    hide ValueCollected, Shadowed;
    var d := Version(key, s.locks[key].start);
    LockKnown(w, s, key);
    if ValueCollected(s.writes, d, safePoint) {
      CollectedIsRecorded(w, s, d, safePoint);
    }
  }

  /** With the safe point at or below the start of every outstanding lock, the status of each lock's
      primary is what it was. */
  lemma GcKeepsStatus(w: World, s: Store, safePoint: Ts, key: Key, now: u64)
    requires Ready(w, s) && key in s.locks
    requires safePoint <= s.locks[key].start
    ensures var l := s.locks[key];
            CheckStatus(AfterGc(s, safePoint), l.primary, l.start, now) == CheckStatus(s, l.primary, l.start, now)
  {
    hide AfterGc, Lookup, Collects, Ready;
    var b, l := AfterGc(s, safePoint), s.locks[key];
    GcKeepsSound(w, s, safePoint);
    assert LockOk(w, s, key, l) by { ReadySound(w, s); LockKnown(w, s, key); }
    GcKeepsRecent(w, s, b, safePoint, l.primary, l.start);
    StatusScan(w, s, l.primary, l.start);
    StatusScan(w, b, l.primary, l.start);
  }

  lemma ReadySound(w: World, s: Store)
    requires Ready(w, s)
    ensures Sound(w, s)
  {
  }

  /** Records of a transaction that started at or above the safe point are kept. */
  lemma GcKeepsRecent(w: World, a: Store, b: Store, safePoint: Ts, key: Key, t: Ts)
    requires Ready(w, a) && Collects(a, b, safePoint) && safePoint <= t && t in w.txns
    ensures b.locks == a.locks
    ensures HasCommit(w, b, key, t) <==> HasCommit(w, a, key, t)
    ensures HasRollback(b, key, t) <==> HasRollback(a, key, t)
  {
    hide ValueCollected, Sound, Separate, Distinct;
    var c, r := Version(key, w.txns[t].commitTs), Version(key, t);
    PairDistinct(w, t, t);
    assert !Shadowed(a.writes, c, safePoint) && !Shadowed(a.writes, r, safePoint);
  }

  /** A rollback newer than the last value, both below the safe point: the collection keeps the
      rollback and loses the value. */
  lemma GcLosesValueUnderRollback(key: Key, t: Ts, c: Ts, r: Ts, value: Value)
    requires c < r < MAX_TS
    ensures var s := Store(map[Version(key, t) := value], map[],
                           map[Version(key, c) := WriteRecord(t, Put), Version(key, r) := WriteRecord(r, Rollback)]);
            ReadVersion(s, key, r) == Ok(Some(value)) && ReadVersion(AfterGc(s, r + 1), key, r) == Ok(None)
  {
    hide AfterGc, ReadVersion;
    var s := Store(map[Version(key, t) := value], map[],
                   map[Version(key, c) := WriteRecord(t, Put), Version(key, r) := WriteRecord(r, Rollback)]);
    var b := AfterGc(s, r + 1);
    GcCollects(s, {key}, r + 1);
    assert NewestCommit(s.writes, key, r, c);
    ReadIsNewestCommit(s, {key}, key, r);
    ReadIsNewestCommit(b, {key}, key, r);
    assert NewestRecordBelow(s.writes, key, r + 1, r);
    NothingLeft(s, b, key, r + 1, r, r);
  }

  /** A transaction both committed and rolled back on a key: the collection takes the rollback together
      with the value of the commit it keeps. */
  lemma GcLosesValueUnderCommit(key: Key, t: Ts, c: Ts, value: Value)
    requires t < c < MAX_TS
    ensures var s := Store(map[Version(key, t) := value], map[],
                           map[Version(key, c) := WriteRecord(t, Put), Version(key, t) := WriteRecord(t, Rollback)]);
            ReadVersion(s, key, c) == Ok(Some(value)) && ReadVersion(AfterGc(s, c + 1), key, c) == Err(CorruptedState)
  {
    hide AfterGc, ReadVersion;
    var s := Store(map[Version(key, t) := value], map[],
                   map[Version(key, c) := WriteRecord(t, Put), Version(key, t) := WriteRecord(t, Rollback)]);
    var b := AfterGc(s, c + 1);
    GcCollects(s, {key}, c + 1);
    assert NewestCommit(s.writes, key, c, c);
    ReadIsNewestCommit(s, {key}, key, c);
    assert Shadowed(s.writes, Version(key, t), c + 1) && !Shadowed(s.writes, Version(key, c), c + 1);
    assert ValueCollected(s.writes, Version(key, t), c + 1);
    assert NewestCommit(b.writes, key, c, c);
    ReadIsNewestCommit(b, {key}, key, c);
  }
}
