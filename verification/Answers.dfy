/**
 What each coordinator call answers, and the store it leaves, said outright: by the locks, records and
 values of the store it meets and the milliseconds on the clock, with no scan and no list of batches.
 */
module Answers {
  import opened Bytes
  import opened Wrappers
  import opened KeyEncoder
  import opened Records
  import opened Store
  import opened Txn
  import opened Protocol
  import opened Runs
  import opened Resolver
  import opened Batch
  import opened Calls
  import opened Theorems
  import opened Limits

  // ---------- Status and resolution ----------

  /** The store with the lock on the key replaced by a rollback record. */
  function RolledBackOn(s: Store, key: Key, t: Ts): Store {
    Store(s.data, s.locks - {key}, s.writes[Version(key, t) := WriteRecord(t, Rollback)])
  }

  /** The store with the lock on the key replaced by a commit record. */
  function CommittedOn(s: Store, key: Key, t: Ts, c: Ts, op: OpType): Store {
    Store(s.data, s.locks - {key}, s.writes[Version(key, c) := WriteRecord(t, op)])
  }

  /** A status check answers the commit if there is one, the time to live of a lock that is alive, and
      RolledBack otherwise; only a lock past its deadline is changed, into a rollback record. */
  lemma StatusExactly(w: World, s: Store, key: Key, t: Ts, now: u64)
    requires Ready(w, s) && key in w.keys
    ensures var o := CheckStatus(s, key, t, now);
            var s' := Run(s, o.edits);
            if HasCommit(w, s, key, t) then o.result == Committed(w.txns[t].commitTs) && s' == s
            else if !s.LockedBy(key, t) then o.result == RolledBack && s' == s
            else if now <= Deadline(t, s.locks[key].ttl) then o.result == Locked(s.locks[key].ttl) && s' == s
            else o.result == RolledBack && s' == RolledBackOn(s, key, t)
  {
    hide Lookup, Sound, Distinct, Separate, Deadline, Expired;
    StatusScan(w, s, key, t);
    if s.LockedBy(key, t) {
      LockKnown(w, s, key);
      ExpiredExactly(now, t, s.locks[key].ttl);
      RunOne(s, Abort(key, t));
    }
  }

  /** The lock's primary holds its lock, and neither that nor the lock itself, given its time to live, is
      past its deadline. */
  predicate Alive(s: Store, primary: Key, t: Ts, ttl: u64, now: Readings) {
    && s.LockedBy(primary, t)
    && now.primary <= Deadline(t, s.locks[primary].ttl) && now.own <= Deadline(t, ttl)
  }

  /** The store in which the lock on the key is resolved: rolled forward if its primary is committed, and
      rolled back otherwise, together with a primary past its deadline. */
  function ResolvedOn(w: World, s: Store, key: Key, lock: Lock, now: u64): Store {
    var (p, t) := (lock.primary, lock.start);
    if HasCommit(w, s, p, t) then CommittedOn(s, key, t, w.txns[t].commitTs, lock.op)
    else if s.LockedBy(p, t) && now > Deadline(t, s.locks[p].ttl) then RolledBackOn(RolledBackOn(s, p, t), key, t)
    else RolledBackOn(s, key, t)
  }

  /** A lock is resolved exactly when it is not alive; an unresolved one leaves the store as it was. */
  lemma ResolveExactly(w: World, s: Store, key: Key, lock: Lock, now: Readings)
    requires Ready(w, s) && lock.primary in w.keys
    ensures var o := Resolve(s, key, lock, now);
            if Alive(s, lock.primary, lock.start, lock.ttl, now) then !o.result && Run(s, o.edits) == s
            else o.result && Run(s, o.edits) == ResolvedOn(w, s, key, lock, now.primary)
  {
    hide Lookup, Resolve, Sound, Distinct, Separate, Deadline, Expired;
    var (p, t) := (lock.primary, lock.start);
    ResolveDecides(w, s, key, lock, now);
    ExpiredExactly(now.own, t, lock.ttl);
    if s.LockedBy(p, t) {
      LockKnown(w, s, p);
      ExpiredExactly(now.primary, t, s.locks[p].ttl);
    }
    RunsOfDecide(w, s, key, lock, now);
  }

  lemma RunsOfDecide(w: World, s: Store, key: Key, lock: Lock, now: Readings)
    ensures var (p, t) := (lock.primary, lock.start);
            && Run(s, []) == s && Run(s, [Abort(key, t)]) == RolledBackOn(s, key, t)
            && Run(s, [Abort(p, t), Abort(key, t)]) == RolledBackOn(RolledBackOn(s, p, t), key, t)
            && (HasCommit(w, s, p, t) ==> Run(s, [Seal(key, t, w.txns[t].commitTs, lock.op)])
                                          == CommittedOn(s, key, t, w.txns[t].commitTs, lock.op))
  {
    var (p, t) := (lock.primary, lock.start);
    RunOne(s, Abort(key, t));
    if HasCommit(w, s, p, t) { RunOne(s, Seal(key, t, w.txns[t].commitTs, lock.op)); }
    assert [Abort(p, t), Abort(key, t)][1..] == [Abort(key, t)];
    RunOne(Apply(s, Abort(p, t)), Abort(key, t));
  }

  // ---------- Reads ----------

  /** What the newest commit on the key at or below the timestamp denotes: its value, nothing for a Delete
      or where there is no commit, and a corrupted state for a Put without value. */
  ghost predicate Denotes(s: Store, key: Key, readTs: Ts, r: Result<Option<Value>, TxnError>) {
    && ((forall ts: Ts :: !NewestCommit(s.writes, key, readTs, ts)) ==> r == Ok(None))
    && forall ts: Ts | NewestCommit(s.writes, key, readTs, ts) ::
         var record := s.writes[Version(key, ts)];
         r == if record.op == Delete then Ok(None)
              else if Version(key, record.start) in s.data then Ok(Some(s.data[Version(key, record.start)]))
              else Err(Mvcc(CorruptedState))
  }

  /** A lock stands in the reader's way. */
  predicate Blocked(s: Store, key: Key, readTs: Ts) {
    key in s.locks && s.locks[key].start <= readTs
  }

  /** A get is refused exactly when the lock in its way is alive, given three seconds to live; otherwise it
      resolves that lock as a Put and answers what the newest commit in the store left behind denotes. */
  lemma GetExactly(w: World, s: Store, key: Key, readTs: Ts, now: Readings)
    requires Ready(w, s) && key in w.keys
    ensures var o := Get(s, key, readTs, now);
            var s' := Run(s, o.edits);
            if !Blocked(s, key, readTs) then s' == s && Denotes(s, key, readTs, o.result)
            else
              var l := s.locks[key];
              if Alive(s, l.primary, l.start, 3000, now) then o.result == Err(KeyLocked(key)) && s' == s
              else
                && s' == ResolvedOn(w, s, key, Lock(l.primary, l.start, 3000, Put), now.primary)
                && Denotes(s', key, readTs, o.result)
  {
    hide Lookup, Resolve, Sound, Distinct, Separate, Alive, ResolvedOn, Denotes, ReadVersion, Run;
    var o := Get(s, key, readTs, now);
    var s' := Run(s, o.edits);
    RunNothing(s);
    GetLegal(w, s, key, readTs, now, AnyClient);
    InvariantRun(w, s, o.edits, AnyClient);
    ReadDenotes(w, s, key, readTs);
    ReadDenotes(w, s', key, readTs);
    if Blocked(s, key, readTs) {
      var l := s.locks[key];
      LockKnown(w, s, key);
      ResolveExactly(w, s, key, Lock(l.primary, l.start, 3000, Put), now);
      ResolvedUnlocks(w, s, key, Lock(l.primary, l.start, 3000, Put), now.primary);
    }
  }

  lemma ResolvedUnlocks(w: World, s: Store, key: Key, lock: Lock, now: u64)
    ensures key !in ResolvedOn(w, s, key, lock, now).locks
  {
  }

  /** The outcome of a read, as a call answers it. */
  function Answer(r: ReadResult): Result<Option<Value>, TxnError> {
    match r
    case Ok(v) => Ok(v)
    case Err(e) => Err(Mvcc(e))
  }

  lemma ReadDenotes(w: World, s: Store, key: Key, readTs: Ts)
    requires Ready(w, s) && key in w.keys
    ensures Denotes(s, key, readTs, Answer(ReadVersion(s, key, readTs)))
    ensures ReadVersion(s, key, readTs).Ok? || ReadVersion(s, key, readTs) == Err(CorruptedState)
  {
    hide Lookup, Sound, Distinct, Separate;
    SoundWithin(w, s);
    ReadIsNewestCommit(s, w.keys, key, readTs);
  }

  /** Where all values are present, a get answers KeyLocked exactly when the lock in its way is alive,
      CorruptedState exactly when it commits a Delete as a Put that is then the newest, and is answered in
      every other case. */
  lemma GetAnswersExactly(w: World, s: Store, key: Key, readTs: Ts, now: Readings)
    requires Ready(w, s) && ValuesPresent(s) && key in w.keys
    ensures var r := Get(s, key, readTs, now).result;
            var locked := Blocked(s, key, readTs)
                          && Alive(s, s.locks[key].primary, s.locks[key].start, 3000, now);
            && (r == Err(KeyLocked(key)) <==> locked)
            && (r == Err(Mvcc(CorruptedState)) <==> ReadsInventedPut(w, s, key, readTs))
            && (r.Ok? <==> !locked && !ReadsInventedPut(w, s, key, readTs))
  {
    hide Get, Run, Sound, Distinct, Separate, ReadsInventedPut, Alive, ResolvedOn, ValuesPresent, Denotes;
    GetExactly(w, s, key, readTs, now);
    GetCorruptsExactly(w, s, key, readTs, now);
    if !(Blocked(s, key, readTs) && Alive(s, s.locks[key].primary, s.locks[key].start, 3000, now)) {
      DenotesSome(Run(s, Get(s, key, readTs, now).edits), key, readTs, Get(s, key, readTs, now).result);
    }
  }

  lemma DenotesSome(s: Store, key: Key, readTs: Ts, r: Result<Option<Value>, TxnError>)
    requires Denotes(s, key, readTs, r)
    ensures r.Ok? || r == Err(Mvcc(CorruptedState))
  {
  }

  // ---------- Prewrites ----------

  /** A foreign lock on the key that is alive. */
  predicate Guarded(s: Store, key: Key, t: Ts, now: Readings) {
    key in s.locks && s.locks[key].start != t
    && Alive(s, s.locks[key].primary, s.locks[key].start, s.locks[key].ttl, now)
  }

  /** The store with the value and the lock of a mutation. */
  function LaidOver(s: Store, m: Mutation, t: Ts, p: Key, ttl: u64): Store {
    Store(match m case PutValue(k, value) => s.data[Version(k, t) := value] case _ => s.data,
          s.locks[m.key := Lock(p, t, ttl, if m.PutValue? then Put else Delete)],
          s.writes)
  }

  /** A prewrite of a key is told of a write conflict exactly when a record there is newer or as old and not
      its own rollback, of its rollback exactly when that is the newest record, and of a lock exactly when
      all records are older and a foreign lock is alive.  Otherwise it is accepted, and its value and lock
      come over the store in which a foreign lock has been resolved. */
  lemma PrewriteKeyExactly(w: World, s: Store, m: Mutation, t: Ts, p: Key, ttl: u64, now: Readings)
    requires Ready(w, s) && m.key in w.keys
    ensures var o := PrewriteKey(s, m, t, p, ttl, now);
            var s' := Run(s, o.edits);
            && (o.result == Refused(WriteConflict(m.key, t))
                <==> exists v :: v in s.writes && v.key == m.key && InConflict(s, v, t))
            && (o.result == Refused(TransactionRolledBack)
                <==> HasRollback(s, m.key, t) && forall v | v in s.writes && v.key == m.key :: v.ts <= t)
            && (o.result == Refused(KeyLocked(m.key)) <==> AllBelow(s, m.key, t) && Guarded(s, m.key, t, now))
            && (o.result == Accepted <==> AllBelow(s, m.key, t) && !Guarded(s, m.key, t, now))
            && (o.result.Refused? ==> s' == s)
            && (o.result.Accepted? ==>
                  s' == LaidOver(if m.key in s.locks && s.locks[m.key].start != t
                                 then ResolvedOn(w, s, m.key, s.locks[m.key], now.primary) else s, m, t, p, ttl))
  {
    hide Lookup, Resolve, Conflict, Sound, Distinct, Separate, Alive, ResolvedOn, Run, LaidOver, AllBelow, InConflict;
    ConflictScan(w, s, m.key, t);
    ConflictKinds(s, m.key, t);
    RunNothing(s);
    RefusedDoesNothing(s, m, t, p, ttl, now);
    if m.key in s.locks && s.locks[m.key].start != t {
      LockKnown(w, s, m.key);
      ResolveExactly(w, s, m.key, s.locks[m.key], now);
      ResolvedUnlocks(w, s, m.key, s.locks[m.key], now.primary);
    }
    var es := Clear(s, m.key, t, now).edits;
    RunConcat(s, es, [Lay(m, t, p, ttl)]);
    RunOne(Run(s, es), Lay(m, t, p, ttl));
    LayOver(Run(s, es), m, t, p, ttl);
  }

  lemma ConflictKinds(s: Store, key: Key, t: Ts)
    ensures Conflict(s, key, t) in {None, Some(TransactionRolledBack), Some(WriteConflict(key, t))}
  {
    hide Lookup;
  }

  lemma LayOver(s: Store, m: Mutation, t: Ts, p: Key, ttl: u64)
    ensures Apply(s, Lay(m, t, p, ttl)) == LaidOver(s, m, t, p, ttl)
  {
  }

  /** A refused prewrite stops at one mutation: all before it are accepted, its own refusal is the answer,
      and the store is left as those before it leave it. */
  lemma {:induction false} PrewriteStops(s: Store, ms: seq<Mutation>, t: Ts, p: Key, ttl: u64, clock: Clock)
    returns (i: nat)
    requires Prewrite(s, ms, t, p, ttl, clock).result.Refused?
    ensures i < |ms| && Prewrite(s, ms[..i], t, p, ttl, clock).result.Accepted?
    ensures var s1 := Run(s, Prewrite(s, ms[..i], t, p, ttl, clock).edits);
            && PrewriteKey(s1, ms[i], t, p, ttl, clock(ms[i].key)).result == Prewrite(s, ms, t, p, ttl, clock).result
            && Run(s, Prewrite(s, ms, t, p, ttl, clock).edits) == s1
    decreases |ms|
  {
    hide PrewriteKey, Run;
    var o := PrewriteKey(s, ms[0], t, p, ttl, clock(ms[0].key));
    RunNothing(s);
    if o.result.Refused? {
      i := 0;
      RefusedDoesNothing(s, ms[0], t, p, ttl, clock(ms[0].key));
      assert ms[..0] == [];
    } else {
      var s1 := Run(s, o.edits);
      var j := PrewriteStops(s1, ms[1..], t, p, ttl, clock);
      i := j + 1;
      assert ms[..i][0] == ms[0] && ms[..i][1..] == ms[1..][..j];
      PrewriteUnfolds(s, ms, t, p, ttl, clock);
      PrewriteUnfolds(s, ms[..i], t, p, ttl, clock);
    }
  }

  /** A refused batched prewrite stops at the same mutation, and leaves the store with the locks before it
      cleared and nothing laid. */
  lemma {:induction false} BatchStops(s: Store, ms: seq<Mutation>, t: Ts, p: Key, ttl: u64, clock: Clock)
    returns (i: nat)
    requires BatchPrewrite(s, ms, t, p, ttl, clock).result.Refused?
    ensures i < |ms| && ClearAll(s, ms[..i], t, clock).result.Accepted?
    ensures var s1 := Run(s, ClearAll(s, ms[..i], t, clock).edits);
            && PrewriteKey(s1, ms[i], t, p, ttl, clock(ms[i].key)).result
               == BatchPrewrite(s, ms, t, p, ttl, clock).result
            && Run(s, BatchPrewrite(s, ms, t, p, ttl, clock).edits) == s1
    decreases |ms|
  {
    hide Clear, Conflict, Run;
    var o := Clear(s, ms[0].key, t, clock(ms[0].key));
    RunNothing(s);
    if Conflict(s, ms[0].key, t).Some? || !o.result {
      i := 0;
      RefusedDoesNothing(s, ms[0], t, p, ttl, clock(ms[0].key));
      assert ms[..0] == [];
    } else {
      var s1 := Run(s, o.edits);
      var j := BatchStops(s1, ms[1..], t, p, ttl, clock);
      i := j + 1;
      assert ms[..i][0] == ms[0] && ms[..i][1..] == ms[1..][..j];
      ClearAllUnfolds(s, ms, t, clock);
      ClearAllUnfolds(s, ms[..i], t, clock);
    }
  }

  /** An accepted prewrite is a run of accepted rounds. */
  lemma {:induction false} PrewriteRounds(s: Store, ms: seq<Mutation>, t: Ts, p: Key, ttl: u64, clock: Clock, i: nat)
    requires Prewrite(s, ms, t, p, ttl, clock).result.Accepted? && i < |ms|
    ensures Prewrite(s, ms[..i], t, p, ttl, clock).result.Accepted?
    ensures var s1 := Run(s, Prewrite(s, ms[..i], t, p, ttl, clock).edits);
            PrewriteKey(s1, ms[i], t, p, ttl, clock(ms[i].key)).result.Accepted?
    decreases |ms|
  {
    hide PrewriteKey, Run;
    RunNothing(s);
    if i == 0 {
      assert ms[..0] == [];
    } else {
      var s1 := Run(s, PrewriteKey(s, ms[0], t, p, ttl, clock(ms[0].key)).edits);
      PrewriteRounds(s1, ms[1..], t, p, ttl, clock, i - 1);
      assert ms[..i][0] == ms[0] && ms[..i][1..] == ms[1..][..i - 1];
      PrewriteUnfolds(s, ms[..i], t, p, ttl, clock);
    }
  }

  // ---------- Commits and rollbacks ----------

  /** The listed keys that the transaction holds. */
  function HeldOf(s: Store, keys: seq<Key>, t: Ts): set<Key> {
    set k | k in keys && s.LockedBy(k, t)
  }

  /** The second store is the first with the locks on these keys turned into commit records. */
  ghost predicate CommitsOn(s: Store, s': Store, held: set<Key>, t: Ts, c: Ts) {
    && s'.data == s.data
    && (forall k :: k in s'.locks <==> k in s.locks && k !in held)
    && (forall k | k in s'.locks :: s'.locks[k] == s.locks[k])
    && (forall v :: v in s'.writes <==> v in s.writes || (v.ts == c && v.key in held))
    && (forall v | v in s'.writes && !(v.ts == c && v.key in held) :: s'.writes[v] == s.writes[v])
    && (forall k | k in held ::
          k in s.locks && Version(k, c) in s'.writes && s'.writes[Version(k, c)] == WriteRecord(t, s.locks[k].op))
  }

  lemma {:induction false} CommitHeldIs(s: Store, keys: seq<Key>, t: Ts, c: Ts)
    ensures CommitsOn(s, Run(s, CommitHeld(s, keys, t, c)), HeldOf(s, keys, t), t, c)
    decreases |keys|
  {
    hide Run, CommitHeld, CommitsOn;
    if keys == [] {
      CommitNothing(s, t, c);
      assert HeldOf(s, keys, t) == {};
      CommitsNone(s, t, c);
    } else {
      CommitHeldUnfolds(s, keys, t, c);
      if s.LockedBy(keys[0], t) {
        var s1 := Apply(s, Seal(keys[0], t, c, s.locks[keys[0]].op));
        CommitHeldIs(s1, keys[1..], t, c);
        assert HeldOf(s1, keys[1..], t) == HeldOf(s, keys, t) - {keys[0]};
        CommitsOneMore(s, Run(s1, CommitHeld(s1, keys[1..], t, c)), HeldOf(s, keys, t), keys[0], t, c);
      } else {
        CommitHeldIs(s, keys[1..], t, c);
        assert HeldOf(s, keys[1..], t) == HeldOf(s, keys, t);
      }
    }
  }

  lemma CommitsNone(s: Store, t: Ts, c: Ts)
    ensures CommitsOn(s, s, {}, t, c)
  {
  }

  lemma CommitsOneMore(s: Store, s': Store, held: set<Key>, k: Key, t: Ts, c: Ts)
    requires k in held && k in s.locks
    requires CommitsOn(Apply(s, Seal(k, t, c, s.locks[k].op)), s', held - {k}, t, c)
    ensures CommitsOn(s, s', held, t, c)
  {
  }

  /** A commit is accepted exactly when it lists nothing or the transaction holds the first key; then every
      listed key it holds, and no other, is committed.  A refused one answers that the transaction was
      rolled back and changes nothing. */
  lemma CommitExactly(s: Store, keys: seq<Key>, t: Ts, c: Ts)
    ensures var o := Commit(s, keys, t, c);
            if keys == [] || s.LockedBy(keys[0], t)
            then o.result == Accepted && CommitsOn(s, Run(s, o.edits), HeldOf(s, keys, t), t, c)
            else o.result == Refused(TransactionRolledBack) && Run(s, o.edits) == s
  {
    hide Run, CommitHeld, CommitsOn;
    RunNothing(s);
    CommitNothing(s, t, c);
    CommitHeldIs(s, keys, t, c);
  }

  /** A batched commit, which is never refused, leaves the same. */
  lemma BatchCommitExactly(s: Store, keys: seq<Key>, t: Ts, c: Ts)
    ensures CommitsOn(s, Run(s, BatchCommit(s, keys, t, c)), HeldOf(s, keys, t), t, c)
  {
    hide Run, CommitHeld, CommitsOn, BatchCommit;
    CommitsAgree(s, s, keys, t, c);
    CommitHeldIs(s, keys, t, c);
  }

  /** On every store of the protocol, an accepted commit leaves its first key committed and no listed key
      held; a refused one finds the first key not held and leaves it so. */
  lemma CommitAnswers(w: World, s: Store, keys: seq<Key>, t: Ts)
    requires Ready(w, s) && t in w.txns
    ensures var o := Commit(s, keys, t, w.txns[t].commitTs);
            var s' := Run(s, o.edits);
            && (o.result.Accepted? && keys != [] ==>
                  HasCommit(w, s', keys[0], t) && forall k | k in keys :: !s'.LockedBy(k, t))
            && (o.result.Refused? ==>
                  o.result.error == TransactionRolledBack && s' == s && keys != [] && !s.LockedBy(keys[0], t))
            && (keys != [] && s.LockedBy(keys[0], t) ==> o.result.Accepted?)
  {
    hide Run, CommitHeld, Distinct, Separate, Commit;
    CommitExactly(s, keys, t, w.txns[t].commitTs);
    if keys != [] && s.LockedBy(keys[0], t) {
      LockKnown(w, s, keys[0]);
      assert keys[0] in HeldOf(s, keys, t);
    }
  }

  /** The second store is the first with a rollback record on every listed key, and none of them held. */
  ghost predicate RollsBackOn(s: Store, s': Store, keys: seq<Key>, t: Ts) {
    && s'.data == s.data
    && (forall k :: k in s'.locks <==> k in s.locks && !(k in keys && s.LockedBy(k, t)))
    && (forall k | k in s'.locks :: s'.locks[k] == s.locks[k])
    && (forall v :: v in s'.writes <==> v in s.writes || (v.ts == t && v.key in keys))
    && (forall v | v in s'.writes ::
          s'.writes[v] == if v.ts == t && v.key in keys then WriteRecord(t, Rollback) else s.writes[v])
  }

  /** A rollback leaves a rollback record on every listed key, drops the transaction's locks there, and
      changes nothing else. */
  lemma {:induction false} RollbackExactly(s: Store, keys: seq<Key>, t: Ts)
    ensures RollsBackOn(s, Run(s, Rollbacks(s, keys, t)), keys, t)
    decreases |keys|
  {
    hide Run, Rollbacks, RollsBackOn, RollbackKey, Apply;
    if keys == [] {
      RollNothingBack(s, t);
      RollsNone(s, t);
    } else {
      var s1 := Apply(s, RollbackKey(s, keys[0], t));
      RollbacksUnfold(s, keys, t);
      RollbackExactly(s1, keys[1..], t);
      RollsOneMore(s, Run(s1, Rollbacks(s1, keys[1..], t)), keys, t);
    }
  }

  lemma RollsNone(s: Store, t: Ts)
    ensures RollsBackOn(s, s, [], t)
  {
  }

  lemma RollsOneMore(s: Store, s': Store, keys: seq<Key>, t: Ts)
    requires keys != [] && RollsBackOn(Apply(s, RollbackKey(s, keys[0], t)), s', keys[1..], t)
    ensures RollsBackOn(s, s', keys, t)
  {
    assert forall k :: k in keys <==> k == keys[0] || k in keys[1..];
  }
}
