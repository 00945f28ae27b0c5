/**
 The byte partitions of the storage engine and the typed store they hold (storage/engine.rs,
 storage/mvcc/reader.rs).
 */
module Engine {
  import opened Bytes
  import opened Ordered
  import opened Wrappers
  import opened KeyEncoder
  import opened Records
  import opened Store
  import opened Txn
  import opened RangeScan
  import opened Regions
  import opened Gc

  type Partition = map<Bytes, Bytes>

  datatype Partitions = Partitions(defaults: Partition, locks: Partition, writes: Partition)

  // ---------- Batches ----------

  datatype Area = DefaultArea | LockArea | WriteArea

  datatype Op = Insert(area: Area, key: Bytes, value: Bytes) | Remove(area: Area, key: Bytes)

  type Batch = seq<Op>

  function ApplyOp(p: Partitions, op: Op): Partitions {
    match op
    case Insert(DefaultArea, k, v) => p.(defaults := p.defaults[k := v])
    case Insert(LockArea, k, v) => p.(locks := p.locks[k := v])
    case Insert(WriteArea, k, v) => p.(writes := p.writes[k := v])
    case Remove(DefaultArea, k) => p.(defaults := p.defaults - {k})
    case Remove(LockArea, k) => p.(locks := p.locks - {k})
    case Remove(WriteArea, k) => p.(writes := p.writes - {k})
  }

  /** All operations of a batch, in the order staged. */
  function ApplyBatch(p: Partitions, b: Batch): Partitions {
    if b == [] then p else ApplyOp(ApplyBatch(p, b[..|b| - 1]), b[|b| - 1])
  }

  lemma {:induction false} ApplyConcat(p: Partitions, a: Batch, b: Batch)
    ensures ApplyBatch(p, a + b) == ApplyBatch(ApplyBatch(p, a), b)
  {
    if b == [] {
      assert a + b == a;
    } else {
      var n := |b| - 1;
      assert (a + b)[..|a + b| - 1] == a + b[..n];
      ApplyConcat(p, a, b[..n]);
    }
  }

  lemma ApplyPair(p: Partitions, a: Op, b: Op)
    ensures ApplyBatch(p, [a]) == ApplyOp(p, a)
    ensures ApplyBatch(p, [a, b]) == ApplyOp(ApplyOp(p, a), b)
  {
    assert [a][..0] == [] && [a, b][..1] == [a];
  }

  // ---------- The typed store that the bytes hold ----------

  ghost predicate BytesAt(p: Partition, v: Version, bytes: Bytes) {
    Encode(v.key, v.ts) in p && p[Encode(v.key, v.ts)] == bytes
  }

  ghost predicate NamesOneOf(k: Bytes, vs: set<Version>) {
    Decode(k).Some? && Decode(k).value in vs
  }

  ghost predicate RecordsHeld(p: Partition, writes: Writes) {
    && (forall v | v in writes :: BytesAt(p, v, RecordToBytes(writes[v])))
    && (forall k | k in p :: NamesOneOf(k, writes.Keys))
  }

  ghost predicate LocksHeld(p: Partition, locks: map<Key, Lock>) {
    && p.Keys == locks.Keys
    && forall k | k in locks :: LockFromBytes(p[k]) == Some(locks[k])
  }

  /** Other data shares the default partition; whatever decodes as a version counts as its value. */
  ghost predicate ValuesHeld(p: Partition, data: map<Version, Value>) {
    && (forall v | v in data :: BytesAt(p, v, data[v]))
    && (forall k | k in p && Decode(k).Some? :: NamesOneOf(k, data.Keys))
  }

  /** Every stored lock and record decodes to the store's, and there is nothing else. */
  ghost predicate Holds(p: Partitions, s: Store) {
    RecordsHeld(p.writes, s.writes) && LocksHeld(p.locks, s.locks) && ValuesHeld(p.defaults, s.data)
  }

  lemma BytesElsewhere(p: Partition, v: Version, u: Version, bytes: Bytes, value: Bytes)
    requires BytesAt(p, u, bytes) && u != v
    ensures BytesAt(p[Encode(v.key, v.ts) := value], u, bytes) && BytesAt(p - {Encode(v.key, v.ts)}, u, bytes)
  {
    hide Encode;
    EncodeInjective(u, v);
  }

  lemma BytesHere(p: Partition, v: Version, value: Bytes, vs: set<Version>)
    ensures BytesAt(p[Encode(v.key, v.ts) := value], v, value)
    ensures v in vs ==> NamesOneOf(Encode(v.key, v.ts), vs)
  {
    DecodeEncode(v.key, v.ts);
  }

  lemma NameRemoved(k: Bytes, v: Version, vs: set<Version>)
    requires NamesOneOf(k, vs) && k != Encode(v.key, v.ts)
    ensures NamesOneOf(k, vs - {v})
  {
    EncodeDecode(k);
  }

  lemma NameAdded(k: Bytes, v: Version, vs: set<Version>)
    requires NamesOneOf(k, vs)
    ensures NamesOneOf(k, vs + {v})
  {
  }

  lemma RecordInserted(p: Partition, writes: Writes, v: Version, r: WriteRecord)
    requires RecordsHeld(p, writes)
    ensures RecordsHeld(p[Encode(v.key, v.ts) := RecordToBytes(r)], writes[v := r])
  {
    hide Encode, RecordToBytes, BytesAt, NamesOneOf;
    var p', writes' := p[Encode(v.key, v.ts) := RecordToBytes(r)], writes[v := r];
    BytesHere(p, v, RecordToBytes(r), writes'.Keys);
    forall u | u in writes' ensures BytesAt(p', u, RecordToBytes(writes'[u])) {
      if u != v { BytesElsewhere(p, v, u, RecordToBytes(writes[u]), RecordToBytes(r)); }
    }
    assert writes'.Keys == writes.Keys + {v};
    forall k | k in p' ensures NamesOneOf(k, writes'.Keys) {
      if k in p { NameAdded(k, v, writes.Keys); }
    }
  }

  lemma RecordRemoved(p: Partition, writes: Writes, v: Version)
    requires RecordsHeld(p, writes)
    ensures RecordsHeld(p - {Encode(v.key, v.ts)}, writes - {v})
  {
    hide Encode, RecordToBytes, BytesAt, NamesOneOf;
    var p', writes' := p - {Encode(v.key, v.ts)}, writes - {v};
    forall u | u in writes' ensures BytesAt(p', u, RecordToBytes(writes'[u])) {
      BytesElsewhere(p, v, u, RecordToBytes(writes[u]), []);
    }
    assert writes'.Keys == writes.Keys - {v};
    forall k | k in p' ensures NamesOneOf(k, writes'.Keys) { NameRemoved(k, v, writes.Keys); }
  }

  lemma ValueInserted(p: Partition, data: map<Version, Value>, v: Version, value: Value)
    requires ValuesHeld(p, data)
    ensures ValuesHeld(p[Encode(v.key, v.ts) := value], data[v := value])
  {
    hide Encode, Decode, BytesAt, NamesOneOf;
    var p', data' := p[Encode(v.key, v.ts) := value], data[v := value];
    BytesHere(p, v, value, data'.Keys);
    forall u | u in data' ensures BytesAt(p', u, data'[u]) {
      if u != v { BytesElsewhere(p, v, u, data[u], value); }
    }
    assert data'.Keys == data.Keys + {v};
    forall k | k in p' && Decode(k).Some? ensures NamesOneOf(k, data'.Keys) {
      if k in p { NameAdded(k, v, data.Keys); }
    }
  }

  lemma ValueRemoved(p: Partition, data: map<Version, Value>, v: Version)
    requires ValuesHeld(p, data)
    ensures ValuesHeld(p - {Encode(v.key, v.ts)}, data - {v})
  {
    hide Encode, Decode, BytesAt, NamesOneOf;
    var p', data' := p - {Encode(v.key, v.ts)}, data - {v};
    forall u | u in data' ensures BytesAt(p', u, data'[u]) { BytesElsewhere(p, v, u, data[u], []); }
    assert data'.Keys == data.Keys - {v};
    forall k | k in p' && Decode(k).Some? ensures NamesOneOf(k, data'.Keys) { NameRemoved(k, v, data.Keys); }
  }

  lemma LockInserted(p: Partition, locks: map<Key, Lock>, key: Key, lock: Lock)
    requires LocksHeld(p, locks) && lock.op != Rollback
    ensures LocksHeld(p[key := LockToBytes(lock)], locks[key := lock.(primary := Kept(lock.primary))])
  {
    hide LockToBytes, LockFromBytes, Kept;
    LockReadsBack(lock);
  }

  lemma LockRemoved(p: Partition, locks: map<Key, Lock>, key: Key)
    requires LocksHeld(p, locks)
    ensures LocksHeld(p - {key}, locks - {key})
  {
    hide LockToBytes, LockFromBytes;
  }

  // ---------- The batch of an edit ----------

  function InsertRecord(key: Key, ts: Ts, start: Ts, op: OpType): Op {
    Insert(WriteArea, Encode(key, ts), RecordToBytes(WriteRecord(start, op)))
  }

  function InsertLock(key: Key, lock: Lock): Op {
    Insert(LockArea, key, LockToBytes(lock))
  }

  function BatchOf(e: Edit): Batch
    requires !e.Extend?
  {
    match e
    case Lay(m, start, primary, ttl) =>
      var lock := InsertLock(m.key, Lock(primary, start, ttl, m.Op()));
      if m.PutValue? then [Insert(DefaultArea, Encode(m.key, start), m.value), lock] else [lock]
    case Seal(key, start, commitTs, op) => [InsertRecord(key, commitTs, start, op), Remove(LockArea, key)]
    case Abort(key, start) => [InsertRecord(key, start, start, Rollback), Remove(LockArea, key)]
    case Mark(key, start) => [InsertRecord(key, start, start, Rollback)]
  }

  /** The edit as it takes effect: a lock keeps of its primary what its length field can tell. */
  function AsStored(e: Edit): Edit {
    if e.Lay? then e.(primary := Kept(e.primary)) else e
  }

  lemma EditHolds(p: Partitions, s: Store, e: Edit)
    requires Holds(p, s) && !e.Extend?
    ensures Holds(ApplyBatch(p, BatchOf(e)), Apply(s, AsStored(e)))
  {
    hide Kept, Encode, RecordToBytes, LockToBytes, RecordsHeld, LocksHeld, ValuesHeld, ApplyBatch;
    var b := BatchOf(e);
    if |b| == 1 { ApplyPair(p, b[0], b[0]); } else { ApplyPair(p, b[0], b[1]); }
    match e
    case Lay(m, start, primary, ttl) =>
      LockInserted(p.locks, s.locks, m.key, Lock(primary, start, ttl, m.Op()));
      if m.PutValue? { ValueInserted(p.defaults, s.data, Version(m.key, start), m.value); }
    case Seal(key, start, commitTs, op) =>
      RecordInserted(p.writes, s.writes, Version(key, commitTs), WriteRecord(start, op));
      LockRemoved(p.locks, s.locks, key);
    case Abort(key, start) =>
      RecordInserted(p.writes, s.writes, Version(key, start), WriteRecord(start, Rollback));
      LockRemoved(p.locks, s.locks, key);
    case Mark(key, start) =>
      RecordInserted(p.writes, s.writes, Version(key, start), WriteRecord(start, Rollback));
  }

  lemma ExtendHolds(p: Partitions, s: Store, key: Key, ttl: u64)
    requires Holds(p, s) && key in s.locks
    ensures Holds(ApplyBatch(p, [InsertLock(key, s.locks[key].(ttl := ttl))]), Apply(s, Extend(key, ttl)))
  {
    hide LockToBytes, LockFromBytes, RecordsHeld, ValuesHeld, ApplyBatch;
    var op := InsertLock(key, s.locks[key].(ttl := ttl));
    ApplyPair(p, op, op);
    DecodedLock(p.locks[key]);
    KeptShort(s.locks[key].primary);
    LockInserted(p.locks, s.locks, key, s.locks[key].(ttl := ttl));
  }

  /** Staged edits, as one batch. */
  function BatchOfAll(es: seq<Edit>): Batch
    requires forall e | e in es :: !e.Extend?
  {
    if es == [] then [] else BatchOfAll(es[..|es| - 1]) + BatchOf(es[|es| - 1])
  }

  function AllAsStored(es: seq<Edit>): (r: seq<Edit>)
    ensures |r| == |es| && forall i | 0 <= i < |es| :: r[i] == AsStored(es[i])
  {
    seq(|es|, i requires 0 <= i < |es| => AsStored(es[i]))
  }

  lemma {:induction false} EditsHold(p: Partitions, s: Store, es: seq<Edit>)
    requires Holds(p, s) && forall e | e in es :: !e.Extend?
    ensures Holds(ApplyBatch(p, BatchOfAll(es)), Run(s, AllAsStored(es)))
    decreases |es|
  {
    hide Holds, BatchOf, Apply;
    if es != [] {
      var n := |es| - 1;
      var front, last := AllAsStored(es[..n]), AsStored(es[n]);
      EditsHold(p, s, es[..n]);
      EditHolds(ApplyBatch(p, BatchOfAll(es[..n])), Run(s, front), es[n]);
      ApplyConcat(p, BatchOfAll(es[..n]), BatchOf(es[n]));
      assert AllAsStored(es) == front + [last];
      RunConcat(s, front, [last]);
      RunOne(Run(s, front), last);
    }
  }

  // ---------- Ordered iteration ----------

  function Range(p: Partition, seek: Bytes): (ks: seq<Bytes>)
    ensures forall k | k in ks :: k in p
  {
    LessIsOrder();
    var found := set k | k in p && Leq(seek, k);
    Sorted(found, Less)
  }

  function EncodeAll(vs: seq<Version>): (ks: seq<Bytes>)
    ensures |ks| == |vs| && forall i | 0 <= i < |vs| :: ks[i] == Encode(vs[i].key, vs[i].ts)
  {
    seq(|vs|, i requires 0 <= i < |vs| => Encode(vs[i].key, vs[i].ts))
  }

  lemma VersionAt(p: Partition, writes: Writes, k: Bytes) returns (v: Version)
    requires RecordsHeld(p, writes) && k in p
    ensures v in writes && k == Encode(v.key, v.ts) && Decode(k) == Some(v)
  {
    hide Encode, BytesAt;
    assert NamesOneOf(k, writes.Keys);
    v := Decode(k).value;
    EncodeDecode(k);
  }

  lemma RecordAt(p: Partition, writes: Writes, v: Version)
    requires RecordsHeld(p, writes) && v in writes
    ensures Encode(v.key, v.ts) in p && p[Encode(v.key, v.ts)] == RecordToBytes(writes[v])
    ensures RecordFromBytes(RecordToBytes(writes[v])) == Some(writes[v])
  {
    hide Encode, RecordToBytes, RecordFromBytes, NamesOneOf;
    assert BytesAt(p, v, RecordToBytes(writes[v]));
    RecordRoundTrip(writes[v]);
  }

  /** Iterating the bytes of the write partition is scanning the versions it holds. */
  lemma RangeIsScan(p: Partition, writes: Writes, seek: Bytes)
    requires RecordsHeld(p, writes)
    ensures Range(p, seek) == EncodeAll(Scan(writes, seek))
  {
    hide Encode, Less, Leq, Scan, RecordsHeld;
    var vs := Scan(writes, seek);
    var ks, es := Range(p, seek), EncodeAll(vs);
    ScanFacts(writes, seek);
    LessIsOrder();
    forall k | k in ks ensures k in es {
      var v := VersionAt(p, writes, k);
      var i :| 0 <= i < |vs| && vs[i] == v;
      assert es[i] == k;
    }
    forall k | k in es ensures k in ks {
      var i :| 0 <= i < |es| && es[i] == k;
      assert vs[i] in vs;
      RecordAt(p, writes, vs[i]);
    }
    assert Ascending(es, Less) by {
      forall i, j | 0 <= i < j < |es| ensures Less(es[i], es[j]) { assert Before(vs[i], vs[j]); }
    }
    AscendingUnique(ks, es, Less);
  }

  // ---------- Walking the write partition ----------

  /** What is left of an iteration, as bytes and as versions. */
  ghost predicate Ahead(p: Partition, writes: Writes, rest: seq<Bytes>, vs: seq<Version>) {
    RecordsHeld(p, writes) && rest == EncodeAll(vs) && forall v | v in vs :: v in writes
  }

  lemma AheadStarts(p: Partitions, s: Store, seek: Bytes)
    requires Holds(p, s)
    ensures Ahead(p.writes, s.writes, Range(p.writes, seek), Scan(s.writes, seek))
  {
    hide RecordsHeld, LocksHeld, ValuesHeld, Range, Scan, EncodeAll;
    RangeIsScan(p.writes, s.writes, seek);
  }

  /** The next item decodes to the next version and its record. */
  lemma AheadNext(p: Partition, writes: Writes, rest: seq<Bytes>, vs: seq<Version>)
    requires Ahead(p, writes, rest, vs) && rest != []
    ensures vs != [] && vs[0] in writes && rest[0] in p
    ensures |rest[0]| + |p[rest[0]]| == Size(writes, vs[0])
    ensures Decode(rest[0]) == Some(vs[0]) && RecordFromBytes(p[rest[0]]) == Some(writes[vs[0]])
    ensures Ahead(p, writes, rest[1..], vs[1..])
  {
    hide RecordsHeld, Encode, Decode, RecordToBytes, RecordFromBytes;
    DecodeEncode(vs[0].key, vs[0].ts);
    RecordAt(p, writes, vs[0]);
    assert EncodeAll(vs)[1..] == EncodeAll(vs[1..]);
  }

  lemma LockAt(p: Partitions, s: Store, key: Key)
    requires Holds(p, s)
    ensures key in p.locks <==> key in s.locks
    ensures key in s.locks ==> LockFromBytes(p.locks[key]) == Some(s.locks[key])
  {
  }

  lemma ValueAt(p: Partitions, s: Store, v: Version)
    requires Holds(p, s)
    ensures Encode(v.key, v.ts) in p.defaults <==> v in s.data
    ensures v in s.data ==> p.defaults[Encode(v.key, v.ts)] == s.data[v]
  {
    hide Encode, Decode, RecordsHeld, LocksHeld;
    DecodeEncode(v.key, v.ts);
    assert v in s.data ==> BytesAt(p.defaults, v, s.data[v]);
    if Encode(v.key, v.ts) in p.defaults { assert NamesOneOf(Encode(v.key, v.ts), s.data.Keys); }
  }

  // ---------- Collecting and listing ----------

  /** The removals a collection stages: each version and the value it refers to. */
  function Removals(writes: Writes, gone: seq<Version>): Batch
    requires forall v | v in gone :: v in writes
  {
    if gone == [] then []
    else
      var v := gone[|gone| - 1];
      Removals(writes, gone[..|gone| - 1])
      + [Remove(WriteArea, Encode(v.key, v.ts))] + [Remove(DefaultArea, Encode(v.key, writes[v].start))]
  }

  lemma {:induction false} RemovalsHold(p: Partitions, s: Store, gone: seq<Version>)
    requires Holds(p, s) && forall v | v in gone :: v in s.writes
    ensures Holds(ApplyBatch(p, Removals(s.writes, gone)), WithoutVersions(s, gone))
    ensures gone == [] ==> WithoutVersions(s, gone) == s
    decreases |gone|
  {
    hide Encode, RecordsHeld, LocksHeld, ValuesHeld, ApplyBatch, Removals;
    if gone == [] {
      assert Removals(s.writes, gone) == [] && ApplyBatch(p, []) == p by { RemoveNothing(p, s.writes); }
      assert WithoutVersions(s, gone) == s;
    } else {
      var n := |gone| - 1;
      var v := gone[n];
      var q, t := ApplyBatch(p, Removals(s.writes, gone[..n])), WithoutVersions(s, gone[..n]);
      RemovalsHold(p, s, gone[..n]);
      RemoveLast(p, s.writes, gone);
      RecordRemoved(q.writes, t.writes, v);
      ValueRemoved(q.defaults, t.data, Version(v.key, s.writes[v].start));
      assert gone == gone[..n] + [v];
      assert WithoutVersions(s, gone).writes == t.writes - {v};
      assert WithoutVersions(s, gone).data == t.data - {Version(v.key, s.writes[v].start)};
    }
  }

  lemma RemovalsNext(writes: Writes, gone: seq<Version>, v: Version)
    requires v in writes && forall u | u in gone :: u in writes
    ensures Removals(writes, gone + [v])
            == Removals(writes, gone)
               + [Remove(WriteArea, Encode(v.key, v.ts))] + [Remove(DefaultArea, Encode(v.key, writes[v].start))]
  {
    assert (gone + [v])[..|gone|] == gone;
  }

  lemma CollectNothing(safePoint: Ts, last: Option<Key>, seen: bool)
    ensures Collect([], safePoint, last, seen) == []
  {
  }

  /** One step of the collecting walk, with what it has collected so far in front. */
  lemma CollectNext(vs: seq<Version>, safePoint: Ts, last: Option<Key>, seen: bool, gone: seq<Version>)
    requires vs != []
    ensures var v, seenHere := vs[0], seen && last == Some(vs[0].key);
            gone + Collect(vs, safePoint, last, seen)
            == (if v.ts < safePoint && seenHere then gone + [v] else gone)
               + Collect(vs[1..], safePoint, Some(v.key), seenHere || v.ts < safePoint)
  {
  }

  lemma RemoveNothing(p: Partitions, writes: Writes)
    ensures Removals(writes, []) == [] && ApplyBatch(p, []) == p
  {
  }

  lemma RemoveLast(p: Partitions, writes: Writes, gone: seq<Version>)
    requires gone != [] && forall v | v in gone :: v in writes
    ensures var n := |gone| - 1;
            var q, v := ApplyBatch(p, Removals(writes, gone[..n])), gone[n];
            ApplyBatch(p, Removals(writes, gone))
            == q.(writes := q.writes - {Encode(v.key, v.ts)}, defaults := q.defaults - {Encode(v.key, writes[v].start)})
  {
    hide Encode;
    var n := |gone| - 1;
    var v, front := gone[n], Removals(writes, gone[..n]);
    var a, b := Remove(WriteArea, Encode(v.key, v.ts)), Remove(DefaultArea, Encode(v.key, writes[v].start));
    assert Removals(writes, gone) == front + [a, b];
    ApplyConcat(p, front, [a, b]);
    ApplyPair(ApplyBatch(p, front), a, b);
  }

  /** Adding to a wrapped total wraps to the same as adding to the total. */
  lemma WrapsAlike(total: u64, more: nat, rest: nat)
    ensures ((total + more) % TWO_64 + rest) % TWO_64 == (total + (more + rest)) % TWO_64
  {
    var q, r := (total + more) / TWO_64, (total + more) % TWO_64;
    assert total + (more + rest) == r + rest + q * TWO_64;
  }

  function ToSet(keys: seq<Key>): set<Key> {
    set k | k in keys
  }

  /** `keys.sort(); keys.dedup()`. */
  function SortAndDedup(keys: seq<Key>): seq<Key> {
    LessIsOrder();
    Sorted(ToSet(keys), Less)
  }

  // ---------- The engine ----------

  lemma FreshHoldsEmpty()
    ensures Holds(Partitions(map[], map[], map[]), EMPTY)
  {
  }

  /** The bytes determine the store. */
  lemma HeldStoreIsUnique(p: Partitions, a: Store, b: Store)
    requires Holds(p, a) && Holds(p, b)
    ensures a == b
  {
    RecordsUnique(p.writes, a.writes, b.writes);
    ValuesUnique(p, a, b);
    hide RecordsHeld, ValuesHeld;
    assert a.locks == b.locks;
  }

  lemma RecordsUnique(p: Partition, a: Writes, b: Writes)
    requires RecordsHeld(p, a) && RecordsHeld(p, b)
    ensures a == b
  {
    hide RecordsHeld;
    forall v | v in a ensures v in b && a[v] == b[v] { SameRecord(p, a, b, v); }
    forall v | v in b ensures v in a { SameRecord(p, b, a, v); }
  }

  lemma ValuesUnique(p: Partitions, a: Store, b: Store)
    requires Holds(p, a) && Holds(p, b)
    ensures a.data == b.data
  {
    hide Holds, Encode;
    forall v
      ensures v in a.data <==> v in b.data
      ensures v in a.data ==> a.data[v] == b.data[v]
    {
      ValueAt(p, a, v);
      ValueAt(p, b, v);
    }
  }

  lemma SameRecord(p: Partition, a: Writes, b: Writes, v: Version)
    requires RecordsHeld(p, a) && RecordsHeld(p, b) && v in a
    ensures v in b && a[v] == b[v]
  {
    hide RecordsHeld, RecordToBytes, RecordFromBytes;
    RecordAt(p, a, v);
    var u := VersionAt(p, b, Encode(v.key, v.ts));
    EncodeInjective(u, v);
    RecordAt(p, b, v);
  }

  class StorageEngine {
    var p: Partitions
    ghost var store: Store

    ghost predicate Valid()
      reads this
    {
      Holds(p, store)
    }

    /** Opens partitions that hold a store; fresh ones hold the empty store. */
    constructor (p: Partitions, ghost held: Store)
      requires Holds(p, held)
      ensures Valid() && this.p == p && store == held
    {
      this.p := p;
      store := held;
    }

    /** A batch takes effect as a whole; `next` is the store its bytes then hold. */
    method CommitBatch(batch: Batch, ghost next: Store)
      requires Holds(ApplyBatch(p, batch), next)
      modifies this
      ensures Valid() && store == next && p == ApplyBatch(old(p), batch)
    {
      p := ApplyBatch(p, batch);
      store := next;
    }

    method GcKeysOlderThan(safePoint: Ts) returns (count: nat)
      requires Valid()
      modifies this
      ensures Valid() && store == AfterGc(old(store), safePoint)
      ensures count == |Collected(old(store.writes), safePoint)|
    {
      hide Encode, Decode, RecordFromBytes, Holds, Range, Scan, RecordsHeld, EncodeAll, ApplyBatch, WithoutVersions,
           Collect, Removals;
      ghost var s := store;
      var batch: Batch := [];
      count := 0;
      var last, seen := None, false;
      var rest := Range(p.writes, []);
      ghost var vs, gone := Scan(s.writes, []), [];
      AheadStarts(p, s, []);
      assert batch == Removals(s.writes, gone) by { RemoveNothing(p, s.writes); }
      while rest != []
        invariant p == old(p) && store == s
        invariant Ahead(p.writes, s.writes, rest, vs)
        invariant forall v | v in gone :: v in s.writes
        invariant batch == Removals(s.writes, gone) && count == |gone|
        invariant Collected(s.writes, safePoint) == gone + Collect(vs, safePoint, last, seen)
        decreases |rest|
      {
        AheadNext(p.writes, s.writes, rest, vs);
        CollectNext(vs, safePoint, last, seen, gone);
        RemovalsNext(s.writes, gone, vs[0]);
        match Decode(rest[0]) {
          case None =>
          case Some(v) =>
            if last != Some(v.key) {
              last, seen := Some(v.key), false;
            }
            if v.ts < safePoint {
              if !seen {
                seen := true;
              } else {
                batch := batch + [Remove(WriteArea, rest[0])];
                match RecordFromBytes(p.writes[rest[0]]) {
                  case None =>
                  case Some(record) => batch := batch + [Remove(DefaultArea, Encode(v.key, record.start))];
                }
                gone, count := gone + [v], count + 1;
              }
            }
        }
        rest, vs := rest[1..], vs[1..];
      }
      assert gone + Collect([], safePoint, last, seen) == gone by { CollectNothing(safePoint, last, seen); }
      RemovalsHold(p, s, gone);
      if count > 0 {
        CommitBatch(batch, WithoutVersions(s, gone));
      }
    }

    /** The distinct user keys in a range, in order. */
    method GetKeysInRange(start: Key, end: Key) returns (keys: seq<Key>)
      requires Valid()
      ensures keys == KeysInRange(store.writes, start, end)
    {
      hide Encode, Decode, RecordFromBytes, Holds, Range, Scan, RecordsHeld, EncodeAll, InRange, KeysIn, KeysOf, Sorted;
      keys := [];
      var last := None;
      var rest := Range(p.writes, []);
      ghost var vs := Scan(store.writes, []);
      AheadStarts(p, store, []);
      KeysOfScan(store.writes, start, end);
      while rest != []
        invariant Ahead(p.writes, store.writes, rest, vs)
        invariant last.Some? ==> last.value in keys
        invariant KeysOf(store.writes, start, end) == ToSet(keys) + KeysIn(vs, start, end)
        decreases |rest|
      {
        AheadNext(p.writes, store.writes, rest, vs);
        KeysInCons(vs, start, end);
        match Decode(rest[0]) {
          case None =>
          case Some(v) =>
            if InRange(v.key, start, end) && last != Some(v.key) {
              last, keys := Some(v.key), keys + [v.key];
            }
        }
        rest, vs := rest[1..], vs[1..];
      }
      KeysOfNone(start, end);
      keys := SortAndDedup(keys);
    }

    /** Number of keys and stored bytes in a range, as 64-bit totals. */
    method CalculateRegionStats(start: Key, end: Key) returns (stats: Stats)
      requires Valid()
      ensures var all := RegionStats(store.writes, start, end); stats == Stats(all.keys % TWO_64, all.bytes % TWO_64)
    {
      hide Encode, Decode, RecordFromBytes, Holds, Range, Scan, RecordsHeld, EncodeAll, InRange, Size;
      var count: u64, total: u64 := 0, 0;
      var last := None;
      var rest := Range(p.writes, []);
      ghost var vs := Scan(store.writes, []);
      AheadStarts(p, store, []);
      while rest != []
        invariant Ahead(p.writes, store.writes, rest, vs)
        invariant var all, ahead := RegionStats(store.writes, start, end), Tally(store.writes, vs, start, end, last);
                  && (count + ahead.keys) % TWO_64 == all.keys % TWO_64
                  && (total + ahead.bytes) % TWO_64 == all.bytes % TWO_64
        decreases |rest|
      {
        AheadNext(p.writes, store.writes, rest, vs);
        match Decode(rest[0]) {
          case None =>
          case Some(v) =>
            if InRange(v.key, start, end) {
              if last != Some(v.key) {
                WrapsAlike(count, 1, Tally(store.writes, vs[1..], start, end, Some(v.key)).keys);
                last, count := Some(v.key), (count + 1) % TWO_64;
              }
              WrapsAlike(total, |rest[0]| + |p.writes[rest[0]]|, Tally(store.writes, vs[1..], start, end, last).bytes);
              total := (total + |rest[0]| + |p.writes[rest[0]]|) % TWO_64;
            }
        }
        rest, vs := rest[1..], vs[1..];
      }
      stats := Stats(count, total);
    }

    method FindMedianKey(start: Key, end: Key) returns (r: Option<Key>)
      requires Valid()
      ensures r == Median(KeysInRange(store.writes, start, end))
      ensures r.Some? <==> |KeysOf(store.writes, start, end)| >= 2
    {
      var keys := GetKeysInRange(start, end);
      if |keys| < 2 {
        return None;
      }
      r := Some(keys[|keys| / 2]);
    }
  }

  class MvccReader {
    const engine: StorageEngine

    constructor (engine: StorageEngine)
      ensures this.engine == engine
    {
      this.engine := engine;
    }

    method Get(key: Key, readTs: Ts) returns (r: ReadResult)
      requires engine.Valid()
      ensures r == Read(engine.store, key, readTs)
    {
      hide Encode, Decode, RecordFromBytes, LockFromBytes, Holds, Range, Scan, RecordsHeld, EncodeAll;
      var p := engine.p;
      ghost var s := engine.store;
      LockAt(p, s, key);
      if key in p.locks {
        match LockFromBytes(p.locks[key])
        case None => return Err(CorruptedState);
        case Some(lock) =>
          if lock.start <= readTs {
            return Err(KeyIsLocked(lock.primary, lock.start));
          }
      }
      var rest := Range(p.writes, Encode(key, readTs));
      ghost var vs := Scan(s.writes, Encode(key, readTs));
      AheadStarts(p, s, Encode(key, readTs));
      while rest != []
        invariant Ahead(p.writes, s.writes, rest, vs)
        invariant Read(s, key, readTs) == ValueOf(s, key, Find(s.writes, vs, key, Visible(readTs)))
        decreases |rest|
      {
        AheadNext(p.writes, s.writes, rest, vs);
        match Decode(rest[0]) {
          case None => return Err(CorruptedState);
          case Some(v) =>
            if v.key != key {
              break;
            }
            if v.ts <= readTs {
              match RecordFromBytes(p.writes[rest[0]])
              case None => return Err(CorruptedState);
              case Some(record) =>
                if record.op == Put {
                  var dataKey := Encode(key, record.start);
                  ValueAt(p, s, Version(key, record.start));
                  if dataKey !in p.defaults {
                    return Err(CorruptedState);
                  }
                  return Ok(Some(p.defaults[dataKey]));
                } else if record.op == Delete {
                  return Ok(None);
                }
            }
        }
        rest, vs := rest[1..], vs[1..];
      }
      r := Ok(None);
    }
  }
}
