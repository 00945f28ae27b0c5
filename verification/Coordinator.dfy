/**
 The lock resolver and the transaction coordinator over the engine's bytes
 (txn-coordinator/lock_resolver.rs, txn-coordinator/coordinator.rs).
 */
module Coordinator {
  import opened Bytes
  import opened Wrappers
  import opened KeyEncoder
  import opened Records
  import opened Store
  import opened Txn
  import opened RangeScan
  import opened Engine

  datatype ResolverError = Corrupted | LockActiveNotExpired

  datatype Resolution = Resolved | NotResolved(error: ResolverError)

  // ---------- One step of each loop ----------

  /** A rollback stages the removal first; the effect is that of its edit. */
  lemma SameEffect(p: Partitions, key: Key, start: Ts, batch: Batch, e: Edit)
    requires e == Abort(key, start) || e == Mark(key, start)
    requires batch == (if e.Abort? then [Remove(LockArea, key)] else []) + [InsertRecord(key, start, start, Rollback)]
    ensures ApplyBatch(p, batch) == ApplyBatch(p, BatchOf(e))
  {
    hide Encode, RecordToBytes;
    var b := BatchOf(e);
    if e.Abort? {
      ApplyPair(p, batch[0], batch[1]);
      ApplyPair(p, b[0], b[1]);
    }
  }

  lemma ClearNothing(s: Store, start: Ts, clock: Clock)
    ensures ClearAll(s, [], start, clock) == Outcome(Accepted, []) && Run(s, []) == s
  {
  }

  lemma ClearAllSteps(s: Store, ms: seq<Mutation>, start: Ts, clock: Clock)
    requires ms != []
    ensures var o, all := Clear(s, ms[0].key, start, clock(ms[0].key)), ClearAll(s, ms, start, clock);
            match Conflict(s, ms[0].key, start)
            case Some(e) => all == Outcome(Refused(e), [])
            case None =>
              if !o.result then all == Outcome(Refused(KeyLocked(ms[0].key)), o.edits)
              else
                var s' := Run(s, o.edits);
                var rest := ClearAll(s', ms[1..], start, clock);
                all.result == rest.result && Run(s, all.edits) == Run(s', rest.edits)
  {
    hide Conflict, Clear, Run;
    if Conflict(s, ms[0].key, start) == None && Clear(s, ms[0].key, start, clock(ms[0].key)).result {
      ClearAllUnfolds(s, ms, start, clock);
    }
  }

  lemma BatchOfNothing()
    ensures BatchOfAll([]) == []
  {
  }

  lemma BatchOfNext(es: seq<Edit>, e: Edit)
    requires !e.Extend? && forall x | x in es :: !x.Extend?
    ensures BatchOfAll(es + [e]) == BatchOfAll(es) + BatchOf(e)
  {
    assert (es + [e])[..|es|] == es;
  }

  lemma SealsAsStored(es: seq<Edit>)
    requires forall e | e in es :: e.Seal?
    ensures AllAsStored(es) == es
  {
    forall i | 0 <= i < |es| ensures AllAsStored(es)[i] == es[i] { assert es[i] in es; }
  }

  lemma CommitsNothing(s: Store, start: Ts, commitTs: Ts)
    ensures Txn.BatchCommit(s, [], start, commitTs) == []
  {
  }

  lemma CommitsNext(staged: seq<Edit>, s: Store, keys: seq<Key>, start: Ts, commitTs: Ts)
    requires keys != []
    ensures staged + Txn.BatchCommit(s, keys, start, commitTs)
            == (if s.LockedBy(keys[0], start)
                then staged + [Seal(keys[0], start, commitTs, s.locks[keys[0]].op)] else staged)
               + Txn.BatchCommit(s, keys[1..], start, commitTs)
  {
    var all, rest := Txn.BatchCommit(s, keys, start, commitTs), Txn.BatchCommit(s, keys[1..], start, commitTs);
    if s.LockedBy(keys[0], start) {
      var e := Seal(keys[0], start, commitTs, s.locks[keys[0]].op);
      assert all == [e] + rest;
      assert staged + ([e] + rest) == (staged + [e]) + rest;
    } else {
      assert all == [] + rest == rest;
    }
  }

  lemma StagedIs(es: seq<Edit>, ms: seq<Mutation>, start: Ts, primary: Key, ttl: u64)
    requires |es| == |ms| && forall j | 0 <= j < |ms| :: es[j] == Lay(ms[j], start, primary, ttl)
    ensures es == Staged(ms, start, primary, ttl)
  {
  }

  lemma WalkNothing(s: Store, start: Key, end: Key, limit: u32, readTs: Ts, clock: Clock, last: Option<Key>,
                    acc: seq<Pair>)
    ensures Walk(s, [], start, end, limit, readTs, clock, last, acc) == Outcome(Ok(acc), [])
  {
  }

  lemma WalkSteps(s: Store, vs: seq<Version>, start: Key, end: Key, limit: u32, readTs: Ts, clock: Clock,
                  last: Option<Key>, acc: seq<Pair>)
    requires vs != []
    ensures var all, key := Walk(s, vs, start, end, limit, readTs, clock, last, acc), vs[0].key;
            if start != [] && Less(key, start) then all == Walk(s, vs[1..], start, end, limit, readTs, clock, last, acc)
            else if end != [] && !Less(key, end) then all == Outcome(Ok(acc), [])
            else if last == Some(key) then all == Walk(s, vs[1..], start, end, limit, readTs, clock, last, acc)
            else
              var o := Txn.Get(s, key, readTs, clock(key));
              match o.result
              case Err(e) => all == Outcome(Err(e), o.edits)
              case Ok(value) =>
                var acc' := if value.Some? then acc + [(key, value.value)] else acc;
                if value.Some? && limit > 0 && |acc'| >= limit then all == Outcome(Ok(acc'), o.edits)
                else
                  var s' := Run(s, o.edits);
                  var rest := Walk(s', vs[1..], start, end, limit, readTs, clock, Some(key), acc');
                  all.result == rest.result && Run(s, all.edits) == Run(s', rest.edits)
  {
    hide Txn.Get, Less, Run;
    var o := Txn.Get(s, vs[0].key, readTs, clock(vs[0].key));
    if o.result.Ok? {
      var value := o.result.value;
      var acc' := if value.Some? then acc + [(vs[0].key, value.value)] else acc;
      var rest := Walk(Run(s, o.edits), vs[1..], start, end, limit, readTs, clock, Some(vs[0].key), acc');
      RunConcat(s, o.edits, rest.edits);
    }
  }

  class LockResolver {
    const engine: StorageEngine

    constructor (engine: StorageEngine)
      ensures this.engine == engine
    {
      this.engine := engine;
    }

    method CheckTxnStatus(primary: Key, start: Ts, now: u64) returns (r: Result<TxnStatus, ResolverError>)
      requires engine.Valid()
      modifies engine
      ensures engine.Valid()
      ensures var o := CheckStatus(old(engine.store), primary, start, now);
              r == Ok(o.result) && engine.store == Run(old(engine.store), o.edits)
    {
      hide Encode, Decode, RecordFromBytes, LockFromBytes, Holds, Range, Scan, RecordsHeld, EncodeAll;
      var p := engine.p;
      ghost var s := engine.store;
      var rest := Range(p.writes, Encode(primary, MAX_TS));
      ghost var vs := Scan(s.writes, Encode(primary, MAX_TS));
      AheadStarts(p, s, Encode(primary, MAX_TS));
      while rest != []
        invariant engine.p == p && engine.store == s
        invariant Ahead(p.writes, s.writes, rest, vs)
        invariant Lookup(s.writes, primary, MAX_TS, StartedAt(start)) == Find(s.writes, vs, primary, StartedAt(start))
        decreases |rest|
      {
        AheadNext(p.writes, s.writes, rest, vs);
        match Decode(rest[0]) {
          case None => return Err(Corrupted);
          case Some(v) =>
            if v.key != primary {
              break;
            }
            match RecordFromBytes(p.writes[rest[0]]) {
              case None =>
              case Some(record) =>
                if record.start == start {
                  return Ok(if record.op == Rollback then RolledBack else Committed(v.ts));
                }
            }
        }
        rest, vs := rest[1..], vs[1..];
      }
      LockAt(p, s, primary);
      if primary in p.locks {
        match LockFromBytes(p.locks[primary])
        case None =>
        case Some(lock) =>
          if lock.start == start {
            if Expired(now, start, lock.ttl) {
              var batch := [InsertRecord(primary, start, start, Rollback), Remove(LockArea, primary)];
              EditHolds(p, s, Abort(primary, start));
              RunOne(s, Abort(primary, start));
              engine.CommitBatch(batch, Apply(s, Abort(primary, start)));
              return Ok(RolledBack);
            }
            return Ok(Locked(lock.ttl));
          }
      }
      r := Ok(RolledBack);
    }

    /** Resolves the lock on a key by the fate of its primary. */
    method ResolveLock(key: Key, lock: Lock, now: Readings) returns (r: Resolution)
      requires engine.Valid()
      modifies engine
      ensures engine.Valid()
      ensures var o := Resolve(old(engine.store), key, lock, now);
              && r == (if o.result then Resolved else NotResolved(LockActiveNotExpired))
              && engine.store == Run(old(engine.store), o.edits)
    {
      hide Encode, Holds, CheckStatus, Run, Apply;
      ghost var s := engine.store;
      ghost var checked := CheckStatus(s, lock.primary, lock.start, now.primary);
      var status := CheckTxnStatus(lock.primary, lock.start, now.primary);
      var batch: Batch;
      ghost var e: Edit;
      match status {
        case Err(error) => return NotResolved(error);
        case Ok(Committed(ts)) =>
          batch := [InsertRecord(key, ts, lock.start, lock.op), Remove(LockArea, key)];
          e := Seal(key, lock.start, ts, lock.op);
        case Ok(RolledBack) =>
          batch := [InsertRecord(key, lock.start, lock.start, Rollback), Remove(LockArea, key)];
          e := Abort(key, lock.start);
        case Ok(Locked(_)) =>
          if !Expired(now.own, lock.start, lock.ttl) {
            return NotResolved(LockActiveNotExpired);
          }
          batch := [InsertRecord(key, lock.start, lock.start, Rollback), Remove(LockArea, key)];
          e := Abort(key, lock.start);
      }
      EditHolds(engine.p, engine.store, e);
      RunConcat(s, checked.edits, [e]);
      RunOne(engine.store, e);
      engine.CommitBatch(batch, Apply(engine.store, e));
      r := Resolved;
    }
  }

  class TransactionCoordinator {
    const engine: StorageEngine
    const resolver: LockResolver

    ghost predicate Valid()
      reads engine
    {
      resolver.engine == engine && engine.Valid()
    }

    constructor (engine: StorageEngine)
      ensures this.engine == engine && resolver.engine == engine
    {
      this.engine := engine;
      resolver := new LockResolver(engine);
    }

    /** Extends the time to live of a lock the transaction holds. */
    method Heartbeat(primary: Key, start: Ts, ttl: u64) returns (r: Result<u64, TxnError>)
      requires Valid()
      modifies engine
      ensures Valid()
      ensures var o := Txn.Heartbeat(old(engine.store), primary, start, ttl);
              r == o.result && engine.store == Run(old(engine.store), o.edits)
    {
      hide LockFromBytes, LockToBytes, Holds;
      var p := engine.p;
      ghost var s := engine.store;
      LockAt(p, s, primary);
      if primary in p.locks {
        match LockFromBytes(p.locks[primary])
        case None => return Err(Mvcc(CorruptedState));
        case Some(lock) =>
          if lock.start == start {
            var batch := [InsertLock(primary, lock.(ttl := ttl))];
            ExtendHolds(p, s, primary, ttl);
            RunOne(s, Extend(primary, ttl));
            engine.CommitBatch(batch, Apply(s, Extend(primary, ttl)));
            return Ok(ttl);
          }
      }
      r := Err(TransactionRolledBack);
    }

    /** A snapshot read that resolves a lock in its way. */
    method Get(key: Key, readTs: Ts, now: Readings) returns (r: Result<Option<Value>, TxnError>)
      requires Valid()
      modifies engine
      ensures Valid()
      ensures var o := Txn.Get(old(engine.store), key, readTs, now);
              r == o.result && engine.store == Run(old(engine.store), o.edits)
    {
      hide Holds, Resolve, Read;
      var reader := new MvccReader(engine);
      var first := reader.Get(key, readTs);
      match first
      case Ok(value) => r := Ok(value);
      case Err(CorruptedState) => r := Err(Mvcc(CorruptedState));
      case Err(KeyIsLocked(primary, lockTs)) =>
        var resolution := resolver.ResolveLock(key, Lock(primary, lockTs, 3000, Put), now);
        if resolution.NotResolved? {
          return Err(KeyLocked(key));
        }
        var again := reader.Get(key, readTs);
        match again
        case Ok(value) => r := Ok(value);
        case Err(e) => r := Err(Mvcc(e));
    }

    /** A snapshot scan of a range: every key is read once, in key order, up to the limit (0 is none).
        The iterator yields the versions stored when the scan began. */
    method ScanKeys(start: Key, end: Key, limit: u32, readTs: Ts, clock: Clock) returns (r: Page)
      requires Valid()
      modifies engine
      ensures Valid()
      ensures var o := ScanRange(old(engine.store), start, end, limit, readTs, clock);
              r == o.result && engine.store == Run(old(engine.store), o.edits)
    {
      hide Encode, Decode, Holds, Range, RecordsHeld, EncodeAll, Run, Txn.Get, Less, Walk, Scan;
      var p := engine.p;
      ghost var s := engine.store;
      ghost var all := ScanRange(s, start, end, limit, readTs, clock);
      var seek := if start == [] then [] else Encode(start, readTs);
      var rest := Range(p.writes, seek);
      ghost var vs := Scan(s.writes, seek);
      AheadStarts(p, s, seek);
      var results: seq<Pair> := [];
      var last := None;
      while rest != []
        invariant Valid()
        invariant Ahead(p.writes, s.writes, rest, vs)
        invariant var w := Walk(engine.store, vs, start, end, limit, readTs, clock, last, results);
                  w.result == all.result && Run(engine.store, w.edits) == Run(s, all.edits)
        decreases |rest|
      {
        AheadNext(p.writes, s.writes, rest, vs);
        WalkSteps(engine.store, vs, start, end, limit, readTs, clock, last, results);
        RunNothing(engine.store);
        var item := rest[0];
        rest, vs := rest[1..], vs[1..];
        match Decode(item) {
          case None => return Err(Mvcc(CorruptedState));
          case Some(v) =>
            if start != [] && Less(v.key, start) {
              continue;
            }
            if end != [] && !Less(v.key, end) {
              break;
            }
            if last == Some(v.key) {
              continue;
            }
            last := Some(v.key);
            var read := Get(v.key, readTs, clock(v.key));
            match read {
              case Err(e) => return Err(e);
              case Ok(None) =>
              case Ok(Some(value)) =>
                results := results + [(v.key, value)];
                if limit > 0 && |results| >= limit {
                  break;
                }
            }
        }
      }
      RunNothing(engine.store);
      WalkNothing(engine.store, start, end, limit, readTs, clock, last, results);
      r := Ok(results);
    }

    /** The record, if any, that forbids a prewrite. */
    method FindConflict(key: Key, start: Ts) returns (r: Option<TxnError>)
      requires engine.Valid()
      ensures r == Conflict(engine.store, key, start)
    {
      hide Encode, Decode, RecordFromBytes, Holds, Range, Scan, RecordsHeld, EncodeAll;
      var p := engine.p;
      ghost var s := engine.store;
      var rest := Range(p.writes, Encode(key, MAX_TS));
      ghost var vs := Scan(s.writes, Encode(key, MAX_TS));
      AheadStarts(p, s, Encode(key, MAX_TS));
      while rest != []
        invariant Ahead(p.writes, s.writes, rest, vs)
        invariant Lookup(s.writes, key, MAX_TS, Blocks(start)) == Find(s.writes, vs, key, Blocks(start))
        decreases |rest|
      {
        AheadNext(p.writes, s.writes, rest, vs);
        match Decode(rest[0]) {
          case None => return Some(Mvcc(CorruptedState));
          case Some(v) =>
            if v.key != key {
              break;
            }
            match RecordFromBytes(p.writes[rest[0]]) {
              case None =>
              case Some(record) =>
                if record.start == start && record.op.Rollback? {
                  return Some(TransactionRolledBack);
                }
            }
            if v.ts >= start {
              return Some(WriteConflict(key, start));
            }
        }
        rest, vs := rest[1..], vs[1..];
      }
      r := None;
    }

    /** One round of the prewrite loop: check, clear a foreign lock, lay value and lock. */
    method PrewriteOne(m: Mutation, start: Ts, primary: Key, ttl: u64, now: Readings) returns (v: Verdict)
      requires Valid()
      modifies engine
      ensures Valid()
      ensures var o := PrewriteKey(old(engine.store), m, start, Kept(primary), ttl, now);
              v == o.result && engine.store == Run(old(engine.store), o.edits)
    {
      hide Encode, LockFromBytes, LockToBytes, Holds, Conflict, Resolve, Run, Apply, Kept;
      ghost var s := engine.store;
      RunNothing(s);
      var conflict := FindConflict(m.key, start);
      if conflict.Some? {
        return Refused(conflict.value);
      }
      LockAt(engine.p, s, m.key);
      if m.key in engine.p.locks {
        match LockFromBytes(engine.p.locks[m.key]) {
          case None => return Refused(Mvcc(CorruptedState));
          case Some(lock) =>
            if lock.start != start {
              var resolution := resolver.ResolveLock(m.key, lock, now);
              if resolution.NotResolved? {
                return Refused(KeyLocked(m.key));
              }
              LockAt(engine.p, engine.store, m.key);
              if m.key in engine.p.locks {
                match LockFromBytes(engine.p.locks[m.key]) {
                  case None => return Refused(Mvcc(CorruptedState));
                  case Some(still) =>
                    if still.start != start {
                      return Refused(KeyLocked(m.key));
                    }
                }
              }
            }
        }
      }
      ghost var e := Lay(m, start, primary, ttl);
      var batch: Batch := [];
      if m.PutValue? {
        batch := batch + [Insert(DefaultArea, Encode(m.key, start), m.value)];
      }
      batch := batch + [InsertLock(m.key, Lock(primary, start, ttl, m.Op()))];
      EditHolds(engine.p, engine.store, e);
      RunConcat(s, Clear(s, m.key, start, now).edits, [AsStored(e)]);
      RunOne(engine.store, AsStored(e));
      engine.CommitBatch(batch, Apply(engine.store, AsStored(e)));
      v := Accepted;
    }

    /** Phase one, a batch for each mutation. */
    method Prewrite(start: Ts, ms: seq<Mutation>, primary: Key, ttl: u64, clock: Clock) returns (v: Verdict)
      requires Valid()
      modifies engine
      ensures Valid()
      ensures var o := Txn.Prewrite(old(engine.store), ms, start, Kept(primary), ttl, clock);
              v == o.result && engine.store == Run(old(engine.store), o.edits)
    {
      hide Holds, PrewriteKey, Run, Kept;
      ghost var all := Txn.Prewrite(engine.store, ms, start, Kept(primary), ttl, clock);
      for i := 0 to |ms|
        invariant Valid()
        invariant var rest := Txn.Prewrite(engine.store, ms[i..], start, Kept(primary), ttl, clock);
                  rest.result == all.result && Run(engine.store, rest.edits) == Run(old(engine.store), all.edits)
      {
        ghost var s := engine.store;
        assert ms[i..][0] == ms[i] && ms[i..][1..] == ms[i + 1..];
        v := PrewriteOne(ms[i], start, primary, ttl, clock(ms[i].key));
        if v.Refused? {
          return;
        }
        PrewriteUnfolds(s, ms[i..], start, Kept(primary), ttl, clock);
      }
      RunNothing(engine.store);
      v := Accepted;
    }

    method SealKey(key: Key, start: Ts, commitTs: Ts, op: OpType)
      requires Valid()
      modifies engine
      ensures Valid() && engine.store == Apply(old(engine.store), Seal(key, start, commitTs, op))
    {
      hide Holds, Apply;
      var batch := [InsertRecord(key, commitTs, start, op), Remove(LockArea, key)];
      EditHolds(engine.p, engine.store, Seal(key, start, commitTs, op));
      engine.CommitBatch(batch, Apply(engine.store, Seal(key, start, commitTs, op)));
    }

    /** Phase two: the first key decides, the others follow as far as they are still held. */
    method Commit(start: Ts, commitTs: Ts, keys: seq<Key>) returns (v: Verdict)
      requires Valid()
      modifies engine
      ensures Valid()
      ensures var o := Txn.Commit(old(engine.store), keys, start, commitTs);
              v == o.result && engine.store == Run(old(engine.store), o.edits)
    {
      hide Holds, Run, CommitHeld, Apply, LockFromBytes;
      RunNothing(engine.store);
      if keys == [] {
        return Accepted;
      }
      LockAt(engine.p, engine.store, keys[0]);
      if keys[0] !in engine.p.locks {
        return Refused(TransactionRolledBack);
      }
      match LockFromBytes(engine.p.locks[keys[0]]) {
        case None => return Refused(Mvcc(CorruptedState));
        case Some(lock) =>
          if lock.start != start {
            return Refused(TransactionRolledBack);
          }
          CommitHeldUnfolds(engine.store, keys, start, commitTs);
          SealKey(keys[0], start, commitTs, lock.op);
      }
      for i := 1 to |keys|
        invariant Valid()
        invariant Run(engine.store, CommitHeld(engine.store, keys[i..], start, commitTs))
                  == Run(old(engine.store), CommitHeld(old(engine.store), keys, start, commitTs))
      {
        assert keys[i..][0] == keys[i] && keys[i..][1..] == keys[i + 1..];
        CommitHeldUnfolds(engine.store, keys[i..], start, commitTs);
        LockAt(engine.p, engine.store, keys[i]);
        if keys[i] in engine.p.locks {
          match LockFromBytes(engine.p.locks[keys[i]]) {
            case None =>
            case Some(lock) =>
              if lock.start == start {
                SealKey(keys[i], start, commitTs, lock.op);
              }
          }
        }
      }
      CommitNothing(engine.store, start, commitTs);
      v := Accepted;
    }

    /** Writes a rollback record for every key, whatever its state, and drops the locks held. */
    method Rollback(start: Ts, keys: seq<Key>)
      requires Valid()
      modifies engine
      ensures Valid() && engine.store == Run(old(engine.store), Rollbacks(old(engine.store), keys, start))
    {
      hide Holds, Run, Rollbacks, Apply, LockFromBytes, Encode;
      for i := 0 to |keys|
        invariant Valid()
        invariant Run(engine.store, Rollbacks(engine.store, keys[i..], start))
                  == Run(old(engine.store), Rollbacks(old(engine.store), keys, start))
      {
        assert keys[i..][0] == keys[i] && keys[i..][1..] == keys[i + 1..];
        RollbacksUnfold(engine.store, keys[i..], start);
        ghost var e := RollbackKey(engine.store, keys[i], start);
        var batch: Batch := [];
        LockAt(engine.p, engine.store, keys[i]);
        if keys[i] in engine.p.locks {
          match LockFromBytes(engine.p.locks[keys[i]]) {
            case None =>
            case Some(lock) =>
              if lock.start == start {
                batch := batch + [Remove(LockArea, keys[i])];
              }
          }
        }
        batch := batch + [InsertRecord(keys[i], start, start, OpType.Rollback)];
        EditHolds(engine.p, engine.store, e);
        SameEffect(engine.p, keys[i], start, batch, e);
        engine.CommitBatch(batch, Apply(engine.store, e));
      }
      RollNothingBack(engine.store, start);
    }

    /** Phase one with all values and locks in one batch at the end. */
    method BatchPrewrite(start: Ts, ms: seq<Mutation>, primary: Key, ttl: u64, clock: Clock) returns (v: Verdict)
      requires Valid()
      modifies engine
      ensures Valid()
      ensures var o := Txn.BatchPrewrite(old(engine.store), ms, start, Kept(primary), ttl, clock);
              v == o.result && engine.store == Run(old(engine.store), o.edits)
    {
      hide Holds, Run, LockFromBytes, Encode, Conflict, Resolve, ClearAll, BatchOfAll, LockToBytes, Staged, Kept;
      ghost var s := engine.store;
      ghost var all := ClearAll(s, ms, start, clock);
      ghost var staged: seq<Edit> := [];
      var batch: Batch := [];
      assert BatchOfAll([]) == [] by { BatchOfNothing(); }
      for i := 0 to |ms|
        invariant Valid()
        invariant var rest := ClearAll(engine.store, ms[i..], start, clock);
                  rest.result == all.result && Run(engine.store, rest.edits) == Run(s, all.edits)
        invariant |staged| == i && forall j | 0 <= j < i :: staged[j] == Lay(ms[j], start, primary, ttl)
        invariant batch == BatchOfAll(staged)
      {
        assert ms[i..][0] == ms[i] && ms[i..][1..] == ms[i + 1..];
        RunNothing(engine.store);
        ClearAllSteps(engine.store, ms[i..], start, clock);
        var conflict := FindConflict(ms[i].key, start);
        if conflict.Some? {
          return Refused(conflict.value);
        }
        LockAt(engine.p, engine.store, ms[i].key);
        if ms[i].key in engine.p.locks {
          match LockFromBytes(engine.p.locks[ms[i].key]) {
            case None => return Refused(Mvcc(CorruptedState));
            case Some(lock) =>
              if lock.start != start {
                var resolution := resolver.ResolveLock(ms[i].key, lock, clock(ms[i].key));
                if resolution.NotResolved? {
                  return Refused(KeyLocked(ms[i].key));
                }
              }
          }
        }
        if ms[i].PutValue? {
          batch := batch + [Insert(DefaultArea, Encode(ms[i].key, start), ms[i].value)];
        }
        batch := batch + [InsertLock(ms[i].key, Lock(primary, start, ttl, ms[i].Op()))];
        BatchOfNext(staged, Lay(ms[i], start, primary, ttl));
        staged := staged + [Lay(ms[i], start, primary, ttl)];
      }
      ClearNothing(engine.store, start, clock);
      StagedIs(AllAsStored(staged), ms, start, Kept(primary), ttl);
      EditsHold(engine.p, engine.store, staged);
      RunConcat(s, all.edits, AllAsStored(staged));
      engine.CommitBatch(batch, Run(engine.store, AllAsStored(staged)));
      v := Accepted;
    }

    /** Phase two in one batch, each key looked up in the store as it was. */
    method BatchCommit(start: Ts, commitTs: Ts, keys: seq<Key>) returns (v: Verdict)
      requires Valid()
      modifies engine
      ensures Valid()
      ensures v == Accepted
      ensures engine.store == Run(old(engine.store), Txn.BatchCommit(old(engine.store), keys, start, commitTs))
    {
      hide Holds, LockFromBytes, Encode, BatchOfAll, Run, RecordToBytes, AllAsStored, Txn.BatchCommit;
      RunNothing(engine.store);
      CommitsNothing(engine.store, start, commitTs);
      if keys == [] {
        return Accepted;
      }
      ghost var s := engine.store;
      ghost var staged: seq<Edit> := [];
      var p, batch := engine.p, [];
      assert BatchOfAll([]) == [] by { BatchOfNothing(); }
      for i := 0 to |keys|
        invariant engine.p == p && engine.store == s
        invariant forall e | e in staged :: e.Seal?
        invariant Txn.BatchCommit(s, keys, start, commitTs) == staged + Txn.BatchCommit(s, keys[i..], start, commitTs)
        invariant batch == BatchOfAll(staged)
      {
        assert keys[i..][0] == keys[i] && keys[i..][1..] == keys[i + 1..];
        CommitsNext(staged, s, keys[i..], start, commitTs);
        LockAt(p, s, keys[i]);
        if keys[i] in p.locks {
          match LockFromBytes(p.locks[keys[i]]) {
            case None => return Refused(Mvcc(CorruptedState));
            case Some(lock) =>
              if lock.start == start {
                ghost var e := Seal(keys[i], start, commitTs, lock.op);
                batch := batch + [InsertRecord(keys[i], commitTs, start, lock.op)] + [Remove(LockArea, keys[i])];
                BatchOfNext(staged, e);
                staged := staged + [e];
              }
          }
        }
      }
      assert staged + [] == staged && AllAsStored(staged) == staged by { SealsAsStored(staged); }
      EditsHold(p, s, staged);
      engine.CommitBatch(batch, Run(s, staged));
      v := Accepted;
    }
  }
}
