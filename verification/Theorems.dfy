/**
 The guarantees of the store over every run of coordinator calls, garbage collection aside.  Any call
 of a run may be cut off between two of its batches.  Each theorem names the rule that clients keep.
 */
module Theorems {
  import opened Bytes
  import opened Wrappers
  import opened KeyEncoder
  import opened Records
  import opened Store
  import opened Txn
  import opened Protocol
  import opened Runs
  import opened Resolver
  import opened Batch
  import opened Calls

  ghost predicate WorldOk(w: World) {
    Separate(w.keys) && Distinct(w)
  }

  lemma EmptyReady(w: World, rule: Rule)
    requires WorldOk(w)
    ensures Ready(w, EMPTY) && RuleInvariant(w, EMPTY, rule)
  {
  }

  /** The key was locked for the transaction at some point of the run. */
  ghost predicate Prewritten(w: World, cs: seq<Call>, key: Key, t: Ts) {
    var es := FullTrace(w, EMPTY, cs, AnyClient);
    exists i | 0 <= i < |es| :: es[i].Lay? && es[i].mutation.key == key && es[i].start == t
  }

  lemma PrewrittenIsTouched(w: World, cs: seq<Call>, rule: Rule, key: Key, t: Ts)
    requires WorldOk(w) && Allowed(w, EMPTY, cs, rule) && Prewritten(w, cs, key, t)
    ensures Touched(w, After(EMPTY, cs), key, t)
  {
    hide FullTrace, After, Allowed;
    EmptyReady(w, AnyClient);
    AllowedAny(w, EMPTY, cs, rule);
    RunLegal(w, EMPTY, cs, AnyClient);
    var es := FullTrace(w, EMPTY, cs, AnyClient);
    var i :| 0 <= i < |es| && es[i].Lay? && es[i].mutation.key == key && es[i].start == t;
    LaidIsTouched(w, EMPTY, es, AnyClient, i);
  }

  // ---------- Atomicity ----------

  lemma RollbackFollows(w: World, s: Store, key: Key, t: Ts)
    requires PrimaryDecides(w, s, t) && t in w.txns
    ensures HasRollback(s, key, t) ==> HasRollback(s, w.txns[t].primary, t)
  {
  }

  /** If any key of a transaction has a commit record, it is at the transaction's one commit
      timestamp, no key is rolled back, and every key it prewrote is committed there or still locked.
      Only calls that touch this transaction need keep its rule. */
  lemma Atomicity(w: World, cs: seq<Call>, t: Ts, v: Version, key: Key)
    requires WorldOk(w) && Allowed(w, EMPTY, cs, PrimaryFirst(t))
    requires var s := After(EMPTY, cs); CommittedAt(s, v) && s.writes[v].start == t
    ensures var s := After(EMPTY, cs);
            && t in w.txns && v.ts == w.txns[t].commitTs
            && !HasRollback(s, key, t)
            && (Prewritten(w, cs, key, t) ==> s.LockedBy(key, t) || HasCommit(w, s, key, t))
  {
    hide Allowed, After, FullTrace, Separate, Distinct;
    EmptyReady(w, PrimaryFirst(t));
    RunLegal(w, EMPTY, cs, PrimaryFirst(t));
    var s := After(EMPTY, cs);
    RecordKnown(w, s, v);
    assert FollowsPrimary(w, s, s.writes[v]);
    RollbackFollows(w, s, key, t);
    if Prewritten(w, cs, key, t) {
      PrewrittenIsTouched(w, cs, PrimaryFirst(t), key, t);
    }
  }

  /** Resolving a lock keeps its transaction's primary in charge exactly when the time to live it is
      judged by covers that of a living primary. */
  lemma ResolveKeepsAtomicityExactly(w: World, s: Store, key: Key, lock: Lock, now: Readings)
    requires Ready(w, s) && PrimaryDecides(w, s, lock.start) && Names(s, key, lock)
    ensures PrimaryDecides(w, Run(s, Resolve(s, key, lock, now).edits), lock.start) <==> Covered(s, key, lock.ttl, now)
  {
    hide Resolve, Run;
    var t := lock.start;
    assert LockOk(w, s, key, s.locks[key]) && LockFollowsPrimary(w, s, s.locks[key]);
    if Covered(s, key, lock.ttl, now) {
      ResolveLegal(w, s, key, lock, now, PrimaryFirst(t));
      InvariantRun(w, s, Resolve(s, key, lock, now).edits, PrimaryFirst(t));
    } else {
      ResolveDecides(w, s, key, lock, now);
      var e := Abort(key, t);
      assert LockOk(w, s, lock.primary, s.locks[lock.primary]);
      assert Decide(w, s, key, lock, now).edits == [e];
      RunOne(s, e);
      assert !FollowsPrimary(w, Apply(s, e), Apply(s, e).writes[Version(key, t)]);
    }
  }

  // ---------- Conservation, final verdicts, no orphans ----------

  /** A prewritten key is always locked by its transaction or holds a record of it, never both. */
  lemma LockConservation(w: World, cs: seq<Call>, key: Key, t: Ts)
    requires WorldOk(w) && Allowed(w, EMPTY, cs, AnyClient)
    ensures var s := After(EMPTY, cs);
            && (Prewritten(w, cs, key, t) ==> s.LockedBy(key, t) || HasRecord(w, s, key, t))
            && !(s.LockedBy(key, t) && HasRecord(w, s, key, t))
  {
    hide FullTrace, After, Allowed;
    EmptyReady(w, AnyClient);
    RunLegal(w, EMPTY, cs, AnyClient);
    var s := After(EMPTY, cs);
    if s.LockedBy(key, t) {
      assert LockOk(w, s, key, s.locks[key]);
    }
    if Prewritten(w, cs, key, t) {
      PrewrittenIsTouched(w, cs, AnyClient, key, t);
    }
  }

  /** Once a status check answers Committed it always will, even after a client rolls back. */
  lemma CommittedForever(w: World, s: Store, cs: seq<Call>, key: Key, t: Ts, commitTs: Ts, now: u64, later: u64)
    requires Ready(w, s) && Allowed(w, s, cs, AnyClient) && key in w.keys
    requires CheckStatus(s, key, t, now).result == Committed(commitTs)
    ensures CheckStatus(After(s, cs), key, t, later).result == Committed(commitTs)
  {
    hide FullTrace, After, Allowed, Lookup;
    RunLegal(w, s, cs, AnyClient);
    FateRun(w, s, FullTrace(w, s, cs, AnyClient), AnyClient, key, t);
    StatusScan(w, s, key, t);
    StatusScan(w, After(s, cs), key, t);
  }

  /** Once a key holds a rollback and no commit of a transaction, it never again carries its lock
      or its commit, and a status check answers RolledBack. */
  lemma RolledBackForever(w: World, s: Store, cs: seq<Call>, key: Key, t: Ts, later: u64)
    requires Ready(w, s) && Allowed(w, s, cs, AnyClient) && key in w.keys
    requires HasRollback(s, key, t) && !HasCommit(w, s, key, t)
    ensures var s' := After(s, cs);
            && CheckStatus(s', key, t, later) == Outcome(RolledBack, [])
            && !s'.LockedBy(key, t) && !HasCommit(w, s', key, t)
  {
    hide FullTrace, After, Allowed, Lookup;
    RunLegal(w, s, cs, AnyClient);
    FateRun(w, s, FullTrace(w, s, cs, AnyClient), AnyClient, key, t);
    var s' := After(s, cs);
    StatusScan(w, s', key, t);
    assert s'.LockedBy(key, t) ==> LockOk(w, s', key, s'.locks[key]);
  }

  /** The primary of a transaction's locks is locked by it or holds a record of it, so resolving them
      never falls through to the answer that rests on no evidence. */
  lemma NoOrphans(w: World, cs: seq<Call>, t: Ts, key: Key)
    requires WorldOk(w) && Allowed(w, EMPTY, cs, PrimaryFirst(t))
    requires After(EMPTY, cs).LockedBy(key, t)
    ensures var s := After(EMPTY, cs);
            var l := s.locks[key];
            s.LockedBy(l.primary, t) || Lookup(s.writes, l.primary, MAX_TS, StartedAt(t)).Some?
  {
    hide Allowed, After, Lookup, FullTrace, Separate, Distinct;
    EmptyReady(w, PrimaryFirst(t));
    RunLegal(w, EMPTY, cs, PrimaryFirst(t));
    var s := After(EMPTY, cs);
    LockKnown(w, s, key);
    LockFollowsKnown(w, s, t, key);
    StatusScan(w, s, s.locks[key].primary, t);
  }

  // ---------- First committer wins ----------

  /** Of two commits on one key, the later one started after the earlier one committed. */
  lemma FirstCommitterWins(w: World, cs: seq<Call>, a: Version, b: Version)
    requires WorldOk(w) && Allowed(w, EMPTY, cs, FreshLocks)
    requires var s := After(EMPTY, cs); CommittedAt(s, a) && CommittedAt(s, b) && a.key == b.key && a.ts < b.ts
    ensures a.ts < After(EMPTY, cs).writes[b].start
  {
    hide FullTrace, After, Allowed;
    EmptyReady(w, FreshLocks);
    RunLegal(w, EMPTY, cs, FreshLocks);
    assert Apart(After(EMPTY, cs), a, b);
  }

  // ---------- Repeatable reads ----------

  /** An answered get reads the store it leaves behind. */
  lemma GetReads(s: Store, key: Key, readTs: Ts, now: Readings)
    ensures var o := Get(s, key, readTs, now);
            o.result.Ok? ==> Read(Run(s, o.edits), key, readTs) == Ok(o.result.value)
  {
    hide Resolve, Lookup;
  }

  /** Two answered gets at one snapshot give the same value, whatever permitted calls come between. */
  lemma RepeatableRead(w: World, s: Store, cs: seq<Call>, key: Key, readTs: Ts, now: Readings, later: Readings)
    requires Ready(w, s) && key in w.keys
    requires Get(s, key, readTs, now).result.Ok?
    requires Allowed(w, Run(s, Get(s, key, readTs, now).edits), cs, SnapshotAt(readTs))
    requires var s2 := After(Run(s, Get(s, key, readTs, now).edits), cs); Get(s2, key, readTs, later).result.Ok?
    ensures var s2 := After(Run(s, Get(s, key, readTs, now).edits), cs);
            Get(s2, key, readTs, later).result == Get(s, key, readTs, now).result
  {
    hide FullTrace, After, Allowed, Lookup, Get, Run;
    var rule := SnapshotAt(readTs);
    var first := Get(s, key, readTs, now);
    var s1 := Run(s, first.edits);
    GetReads(s, key, readTs, now);
    GetLegal(w, s, key, readTs, now, rule);
    InvariantRun(w, s, first.edits, rule);
    var s2 := After(s1, cs);
    RunLegal(w, s1, cs, rule);
    var second := Get(s2, key, readTs, later);
    var s3 := Run(s2, second.edits);
    GetReads(s2, key, readTs, later);
    GetLegal(w, s2, key, readTs, later, rule);
    InvariantRun(w, s2, second.edits, rule);
    var es := FullTrace(w, s1, cs, rule) + second.edits;
    LegalConcat(w, s1, FullTrace(w, s1, cs, rule), second.edits, rule);
    RunConcat(s1, FullTrace(w, s1, cs, rule), second.edits);
    assert Run(s1, es) == s3;
    ReadIsQuiet(w, s1, key, readTs);
    SnapshotRun(w, s1, es, key, readTs);
    SameRead(w, s1, s3, key, readTs);
  }

  lemma ReadIsQuiet(w: World, s: Store, key: Key, readTs: Ts)
    requires Ready(w, s) && Read(s, key, readTs).Ok?
    ensures Quiet(w, s, key, readTs) && Read(s, key, readTs) == ReadVersion(s, key, readTs)
  {
    hide Lookup, NoCommit;
    if key in s.locks {
      assert LockOk(w, s, key, s.locks[key]);
    }
  }

  // ---------- No corrupted reads ----------

  /** No read ever finds a commit record whose value is missing. */
  lemma NeverCorrupted(w: World, cs: seq<Call>, key: Key, readTs: Ts)
    requires WorldOk(w) && Allowed(w, EMPTY, cs, StoredOps)
    ensures Read(After(EMPTY, cs), key, readTs) != Err(CorruptedState)
  {
    hide FullTrace, After, Allowed, Lookup;
    EmptyReady(w, StoredOps);
    RunLegal(w, EMPTY, cs, StoredOps);
  }

  // ---------- What is written is read ----------

  /** An accepted prewrite leaves on each of its keys the lock and value of the last mutation on it. */
  lemma PrewriteLays(s: Store, ms: seq<Mutation>, t: Ts, p: Key, ttl: u64, clock: Clock, key: Key)
    requires Prewrite(s, ms, t, p, ttl, clock).result.Accepted? && key in Keys(ms)
    ensures var s' := Run(s, Prewrite(s, ms, t, p, ttl, clock).edits);
            LastOn(ms, key).Some? && LaidOn(s, s', ms, key, t, p, ttl)
  {
    hide Prewrite, ClearAll, Staged;
    BatchPrewriteRefines(s, ms, t, p, ttl, clock);
    var cleared := ClearAll(s, ms, t, clock).edits;
    RunConcat(s, cleared, Staged(ms, t, p, ttl));
    LaidOnKey(Run(s, cleared), ms, key, t, p, ttl);
  }

  lemma {:induction false} CommitHeldSeals(s: Store, keys: seq<Key>, t: Ts, c: Ts, key: Key)
    requires key in keys && s.LockedBy(key, t)
    ensures var s' := Run(s, CommitHeld(s, keys, t, c));
            && key !in s'.locks && s'.data == s.data && Version(key, c) in s'.writes
            && s'.writes[Version(key, c)] == WriteRecord(t, s.locks[key].op)
    decreases |keys|
  {
    var e := Seal(keys[0], t, c, if keys[0] in s.locks then s.locks[keys[0]].op else Put);
    if keys[0] == key {
      SealedStays(Apply(s, e), keys[1..], t, c, key);
    } else if s.LockedBy(keys[0], t) {
      CommitHeldSeals(Apply(s, e), keys[1..], t, c, key);
    } else {
      CommitHeldSeals(s, keys[1..], t, c, key);
    }
  }

  lemma {:induction false} SealedStays(s: Store, keys: seq<Key>, t: Ts, c: Ts, key: Key)
    requires key !in s.locks
    ensures var s' := Run(s, CommitHeld(s, keys, t, c));
            && key !in s'.locks && s'.data == s.data
            && (Version(key, c) in s.writes ==> Version(key, c) in s'.writes
                                                && s'.writes[Version(key, c)] == s.writes[Version(key, c)])
    decreases |keys|
  {
    if keys != [] {
      if s.LockedBy(keys[0], t) {
        SealedStays(Apply(s, Seal(keys[0], t, c, s.locks[keys[0]].op)), keys[1..], t, c, key);
      } else {
        SealedStays(s, keys[1..], t, c, key);
      }
    }
  }

  lemma FoundAtItself(w: World, s: Store, key: Key, c: Ts)
    requires Ready(w, s) && CommittedAt(s, Version(key, c))
    ensures Lookup(s.writes, key, c, Visible(c)) == Some(c)
  {
    hide Lookup;
    SoundWithin(w, s);
    LookupIsNewest(s.writes, w.keys, key, c, Visible(c));
    assert IsNewest(s.writes, key, c, Visible(c), c);
  }

  // ---------- Heartbeats and rollbacks ----------

  /** An accepted heartbeat makes the lock live until its start plus the new time to live; a refused
      one, which is one for a lock the transaction does not hold, changes nothing. */
  lemma HeartbeatKeepsAlive(w: World, s: Store, key: Key, t: Ts, ttl: u64, now: u64)
    requires Ready(w, s) && key in w.keys
    ensures var o := Heartbeat(s, key, t, ttl);
            var s' := Run(s, o.edits);
            if !s.LockedBy(key, t) then o.result == Err(TransactionRolledBack) && s' == s
            else
              && o.result == Ok(ttl)
              && CheckStatus(s', key, t, now).result == (if now > Deadline(t, ttl) then RolledBack else Locked(ttl))
              && s'.locks.Keys == s.locks.Keys && s'.locks[key] == s.locks[key].(ttl := ttl)
              && forall k | k in s.locks && k != key :: s'.locks[k] == s.locks[k]
  {
    hide Lookup, Sound, Distinct, Separate;
    RunNothing(s);
    if s.LockedBy(key, t) {
      LockKnown(w, s, key);
      var e := Extend(key, ttl);
      RunOne(s, e);
      SoundStep(w, s, e);
      StatusScan(w, Apply(s, e), key, t);
      ExpiredExactly(now, t, ttl);
    }
  }

  /** After a rollback every named key holds the rollback record and not the lock, and no lock of
      another transaction is touched. */
  lemma {:induction false} RollbackReleases(s: Store, keys: seq<Key>, t: Ts, key: Key)
    ensures var s' := Run(s, Rollbacks(s, keys, t));
            && (key in keys ==> HasRollback(s', key, t) && !s'.LockedBy(key, t))
            && (HasRollback(s, key, t) ==> HasRollback(s', key, t)) && (s'.LockedBy(key, t) ==> s.LockedBy(key, t))
            && (key in s.locks && s.locks[key].start != t ==> key in s'.locks && s'.locks[key] == s.locks[key])
            && s'.data == s.data
    decreases |keys|
  {
    hide Run, Rollbacks;
    if keys == [] {
      RollNothingBack(s, t);
    } else {
      var s1 := Apply(s, RollbackKey(s, keys[0], t));
      RollbacksUnfold(s, keys, t);
      RollbackReleases(s1, keys[1..], t, key);
    }
  }
}
