/**
 What each coordinator call answers and which batches it commits, in order, as a function of the
 store it starts from (txn-coordinator/coordinator.rs, txn-coordinator/lock_resolver.rs).
 What the wall clock shows is an argument.
 */
module Txn {
  import opened Bytes
  import opened Wrappers
  import opened KeyEncoder
  import opened Records
  import opened Store

  datatype Mutation = PutValue(key: Key, value: Value) | DeleteKey(key: Key) {
    function Op(): OpType {
      if PutValue? then Put else Delete
    }
  }

  datatype TxnStatus = Committed(commitTs: Ts) | RolledBack | Locked(ttl: u64)

  datatype TxnError =
    | WriteConflict(key: Key, start: Ts)
    | KeyLocked(key: Key)
    | TransactionRolledBack
    | Mvcc(error: ReadError)

  // ---------- Batches ----------

  /** One batch on one key. */
  datatype Edit =
    | Lay(mutation: Mutation, start: Ts, primary: Key, ttl: u64)   // value and lock
    | Seal(key: Key, start: Ts, commitTs: Ts, op: OpType)          // commit record, lock removed
    | Abort(key: Key, start: Ts)                                   // rollback record, lock removed
    | Mark(key: Key, start: Ts)                                    // rollback record only
    | Extend(key: Key, ttl: u64)                                   // new time to live

  function Apply(s: Store, e: Edit): Store {
    match e
    case Lay(m, start, primary, ttl) =>
      s.(data := if m.PutValue? then s.data[Version(m.key, start) := m.value] else s.data,
         locks := s.locks[m.key := Lock(primary, start, ttl, m.Op())])
    case Seal(key, start, commitTs, op) =>
      s.(locks := s.locks - {key}, writes := s.writes[Version(key, commitTs) := WriteRecord(start, op)])
    case Abort(key, start) =>
      s.(locks := s.locks - {key}, writes := s.writes[Version(key, start) := WriteRecord(start, Rollback)])
    case Mark(key, start) =>
      s.(writes := s.writes[Version(key, start) := WriteRecord(start, Rollback)])
    case Extend(key, ttl) =>
      if key in s.locks then s.(locks := s.locks[key := s.locks[key].(ttl := ttl)]) else s
  }

  function Run(s: Store, es: seq<Edit>): Store
    decreases |es|
  {
    if es == [] then s else Run(Apply(s, es[0]), es[1..])
  }

  lemma {:induction false} RunConcat(s: Store, a: seq<Edit>, b: seq<Edit>)
    ensures Run(s, a + b) == Run(Run(s, a), b)
    decreases |a|
  {
    if a == [] {
      assert a + b == b;
    } else {
      assert (a + b)[1..] == a[1..] + b;
      RunConcat(Apply(s, a[0]), a[1..], b);
    }
  }

  lemma RunNothing(s: Store)
    ensures Run(s, []) == s
  {
  }

  lemma RunOne(s: Store, e: Edit)
    ensures Run(s, [e]) == Apply(s, e)
  {
    assert [e][1..] == [];
  }

  /** A call's answer and its batches. */
  datatype Outcome<+R> = Outcome(result: R, edits: seq<Edit>)

  // ---------- Lock resolution ----------

  /** Unsigned 64-bit addition wraps. */
  predicate Expired(now: u64, start: Ts, ttl: u64) {
    now > (start / 0x1_0000 + ttl) % TWO_64
  }

  /** The two readings made while a lock is resolved: for its primary's lock, and for its own. */
  datatype Readings = Readings(primary: u64, own: u64)

  /** The readings of a call on several keys: no call resolves the lock on a key twice. */
  type Clock = Key -> Readings

  function StartedAt(start: Ts): Test {
    (ts: Ts, r: WriteRecord) => r.start == start
  }

  function CheckStatus(s: Store, primary: Key, start: Ts, now: u64): Outcome<TxnStatus> {
    match Lookup(s.writes, primary, MAX_TS, StartedAt(start))
    case Some(ts) =>
      Outcome(if s.writes[Version(primary, ts)].op == Rollback then RolledBack else Committed(ts), [])
    case None =>
      if !s.LockedBy(primary, start) then Outcome(RolledBack, [])
      else if Expired(now, start, s.locks[primary].ttl) then Outcome(RolledBack, [Abort(primary, start)])
      else Outcome(Locked(s.locks[primary].ttl), [])
  }

  /** Answers whether the lock was resolved; false is LockActiveNotExpired. */
  function Resolve(s: Store, key: Key, lock: Lock, now: Readings): Outcome<bool> {
    var status := CheckStatus(s, lock.primary, lock.start, now.primary);
    match status.result
    case Committed(ts) => Outcome(true, status.edits + [Seal(key, lock.start, ts, lock.op)])
    case RolledBack => Outcome(true, status.edits + [Abort(key, lock.start)])
    case Locked(_) =>
      if Expired(now.own, lock.start, lock.ttl) then Outcome(true, status.edits + [Abort(key, lock.start)])
      else Outcome(false, status.edits)
  }

  // ---------- Reads ----------

  const READ_TTL: u64 := 3000

  /** The lock that a blocked read hands to the resolver: only its primary and start are the stored ones. */
  function AssumedLock(primary: Key, start: Ts): Lock {
    Lock(primary, start, READ_TTL, Put)
  }

  function Get(s: Store, key: Key, readTs: Ts, now: Readings): Outcome<Result<Option<Value>, TxnError>> {
    match Read(s, key, readTs)
    case Ok(v) => Outcome(Ok(v), [])
    case Err(CorruptedState) => Outcome(Err(Mvcc(CorruptedState)), [])
    case Err(KeyIsLocked(primary, lockTs)) =>
      var o := Resolve(s, key, AssumedLock(primary, lockTs), now);
      if !o.result then Outcome(Err(KeyLocked(key)), o.edits)
      else match Read(Run(s, o.edits), key, readTs)
        case Ok(v) => Outcome(Ok(v), o.edits)
        case Err(e) => Outcome(Err(Mvcc(e)), o.edits)
  }

  // ---------- Phase one ----------

  /** A record that forbids a prewrite by the transaction started at `start`. */
  function Blocks(start: Ts): Test {
    (ts: Ts, r: WriteRecord) => (r.start == start && r.op == Rollback) || ts >= start
  }

  function Conflict(s: Store, key: Key, start: Ts): Option<TxnError> {
    match Lookup(s.writes, key, MAX_TS, Blocks(start))
    case None => None
    case Some(ts) =>
      var r := s.writes[Version(key, ts)];
      Some(if r.start == start && r.op == Rollback then TransactionRolledBack else WriteConflict(key, start))
  }

  /** Resolve the lock of another transaction, if there is one. */
  function Clear(s: Store, key: Key, start: Ts, now: Readings): Outcome<bool> {
    if key in s.locks && s.locks[key].start != start then Resolve(s, key, s.locks[key], now)
    else Outcome(true, [])
  }

  datatype Verdict = Accepted | Refused(error: TxnError)

  function PrewriteKey(s: Store, m: Mutation, start: Ts, primary: Key, ttl: u64, now: Readings): Outcome<Verdict> {
    match Conflict(s, m.key, start)
    case Some(e) => Outcome(Refused(e), [])
    case None =>
      var o := Clear(s, m.key, start, now);
      var cleared := Run(s, o.edits);
      if !o.result || (m.key in cleared.locks && cleared.locks[m.key].start != start)
      then Outcome(Refused(KeyLocked(m.key)), o.edits)
      else Outcome(Accepted, o.edits + [Lay(m, start, primary, ttl)])
  }

  function Prewrite(s: Store, ms: seq<Mutation>, start: Ts, primary: Key, ttl: u64, clock: Clock): Outcome<Verdict>
    decreases |ms|
  {
    if ms == [] then Outcome(Accepted, [])
    else
      var o := PrewriteKey(s, ms[0], start, primary, ttl, clock(ms[0].key));
      if o.result.Refused? then o
      else
        var rest := Prewrite(Run(s, o.edits), ms[1..], start, primary, ttl, clock);
        Outcome(rest.result, o.edits + rest.edits)
  }

  /** The checks of a batched prewrite: locks are cleared as it goes, nothing is laid. */
  function ClearAll(s: Store, ms: seq<Mutation>, start: Ts, clock: Clock): Outcome<Verdict>
    decreases |ms|
  {
    if ms == [] then Outcome(Accepted, [])
    else match Conflict(s, ms[0].key, start)
      case Some(e) => Outcome(Refused(e), [])
      case None =>
        var o := Clear(s, ms[0].key, start, clock(ms[0].key));
        if !o.result then Outcome(Refused(KeyLocked(ms[0].key)), o.edits)
        else
          var rest := ClearAll(Run(s, o.edits), ms[1..], start, clock);
          Outcome(rest.result, o.edits + rest.edits)
  }

  /** The first mutation passes: what remains is a prewrite of the others. */
  lemma PrewriteUnfolds(s: Store, ms: seq<Mutation>, start: Ts, primary: Key, ttl: u64, clock: Clock)
    requires ms != [] && PrewriteKey(s, ms[0], start, primary, ttl, clock(ms[0].key)).result.Accepted?
    ensures var s' := Run(s, PrewriteKey(s, ms[0], start, primary, ttl, clock(ms[0].key)).edits);
            var all := Prewrite(s, ms, start, primary, ttl, clock);
            var rest := Prewrite(s', ms[1..], start, primary, ttl, clock);
            all.result == rest.result && Run(s, all.edits) == Run(s', rest.edits)
  {
    var o := PrewriteKey(s, ms[0], start, primary, ttl, clock(ms[0].key));
    RunConcat(s, o.edits, Prewrite(Run(s, o.edits), ms[1..], start, primary, ttl, clock).edits);
  }

  lemma ClearAllUnfolds(s: Store, ms: seq<Mutation>, start: Ts, clock: Clock)
    requires ms != [] && Conflict(s, ms[0].key, start) == None && Clear(s, ms[0].key, start, clock(ms[0].key)).result
    ensures var s' := Run(s, Clear(s, ms[0].key, start, clock(ms[0].key)).edits);
            var all, rest := ClearAll(s, ms, start, clock), ClearAll(s', ms[1..], start, clock);
            all.result == rest.result && Run(s, all.edits) == Run(s', rest.edits)
  {
    var o := Clear(s, ms[0].key, start, clock(ms[0].key));
    RunConcat(s, o.edits, ClearAll(Run(s, o.edits), ms[1..], start, clock).edits);
  }

  /** The staged batch of a batched prewrite. */
  function Staged(ms: seq<Mutation>, start: Ts, primary: Key, ttl: u64): seq<Edit> {
    seq(|ms|, i requires 0 <= i < |ms| => Lay(ms[i], start, primary, ttl))
  }

  function BatchPrewrite(s: Store, ms: seq<Mutation>, start: Ts, primary: Key, ttl: u64, clock: Clock)
    : Outcome<Verdict>
  {
    var o := ClearAll(s, ms, start, clock);
    if o.result.Refused? then o else Outcome(Accepted, o.edits + Staged(ms, start, primary, ttl))
  }

  // ---------- Phase two ----------

  /** Commit whichever of the keys the transaction still holds, one batch each. */
  function CommitHeld(s: Store, keys: seq<Key>, start: Ts, commitTs: Ts): seq<Edit>
    decreases |keys|
  {
    if keys == [] then []
    else if s.LockedBy(keys[0], start) then
      var e := Seal(keys[0], start, commitTs, s.locks[keys[0]].op);
      [e] + CommitHeld(Apply(s, e), keys[1..], start, commitTs)
    else CommitHeld(s, keys[1..], start, commitTs)
  }

  function Commit(s: Store, keys: seq<Key>, start: Ts, commitTs: Ts): Outcome<Verdict> {
    if keys == [] then Outcome(Accepted, [])
    else if s.LockedBy(keys[0], start) then Outcome(Accepted, CommitHeld(s, keys, start, commitTs))
    else Outcome(Refused(TransactionRolledBack), [])
  }

  /** The staged batch of a batched commit: every key is looked up in the store as it was. */
  function BatchCommit(s: Store, keys: seq<Key>, start: Ts, commitTs: Ts): seq<Edit> {
    if keys == [] then []
    else
      (if s.LockedBy(keys[0], start) then [Seal(keys[0], start, commitTs, s.locks[keys[0]].op)] else [])
      + BatchCommit(s, keys[1..], start, commitTs)
  }

  function RollbackKey(s: Store, key: Key, start: Ts): Edit {
    if s.LockedBy(key, start) then Abort(key, start) else Mark(key, start)
  }

  function Rollbacks(s: Store, keys: seq<Key>, start: Ts): seq<Edit>
    decreases |keys|
  {
    if keys == [] then []
    else
      var e := RollbackKey(s, keys[0], start);
      [e] + Rollbacks(Apply(s, e), keys[1..], start)
  }

  lemma CommitNothing(s: Store, start: Ts, commitTs: Ts)
    ensures Run(s, CommitHeld(s, [], start, commitTs)) == s
  {
  }

  lemma CommitHeldUnfolds(s: Store, keys: seq<Key>, start: Ts, commitTs: Ts)
    requires keys != []
    ensures var s' := if s.LockedBy(keys[0], start) then Apply(s, Seal(keys[0], start, commitTs, s.locks[keys[0]].op))
                      else s;
            Run(s, CommitHeld(s, keys, start, commitTs)) == Run(s', CommitHeld(s', keys[1..], start, commitTs))
  {
    hide Apply;
  }

  lemma RollNothingBack(s: Store, start: Ts)
    ensures Run(s, Rollbacks(s, [], start)) == s
  {
  }

  lemma RollbacksUnfold(s: Store, keys: seq<Key>, start: Ts)
    requires keys != []
    ensures var s' := Apply(s, RollbackKey(s, keys[0], start));
            Run(s, Rollbacks(s, keys, start)) == Run(s', Rollbacks(s', keys[1..], start))
  {
    hide Apply;
  }

  function Heartbeat(s: Store, primary: Key, start: Ts, ttl: u64): Outcome<Result<u64, TxnError>> {
    if s.LockedBy(primary, start) then Outcome(Ok(ttl), [Extend(primary, ttl)])
    else Outcome(Err(TransactionRolledBack), [])
  }
}
