/** For every call, exactly when it leaves a transaction's primary in charge. */
module Discipline {
  import opened Bytes
  import opened Wrappers
  import opened KeyEncoder
  import opened Records
  import opened Store
  import opened Txn
  import opened Protocol
  import opened Runs
  import opened Resolver
  import opened Batch
  import opened Calls
  import opened Theorems

  lemma PermittedKeeps(w: World, s: Store, c: Call, u: Ts)
    requires Ready(w, s) && PrimaryDecides(w, s, u) && Permitted(w, s, c, PrimaryFirst(u))
    ensures PrimaryDecides(w, Run(s, Edits(s, c)), u)
  {
    hide Edits, Trace, Permitted, Ready, PrimaryDecides, Run;
    CallLegal(w, s, c, PrimaryFirst(u));
    TraceAgrees(w, s, c, PrimaryFirst(u));
    InvariantRun(w, s, Trace(w, s, c, PrimaryFirst(u)), PrimaryFirst(u));
  }

  lemma AnyClientFate(w: World, s: Store, c: Call, key: Key, t: Ts)
    requires Ready(w, s) && Permitted(w, s, c, AnyClient)
    ensures HasCommit(w, s, key, t) ==> HasCommit(w, Run(s, Edits(s, c)), key, t)
  {
    hide Edits, Trace, Permitted, Run, Separate;
    CallLegal(w, s, c, AnyClient);
    TraceAgrees(w, s, c, AnyClient);
    FateRun(w, s, Trace(w, s, c, AnyClient), AnyClient, key, t);
  }

  // ---------- Commits ----------

  /** A commit adds a record only to listed keys that are held. */
  lemma {:induction false} CommitsOnlyHeld(w: World, s: Store, keys: seq<Key>, t: Ts, c: Ts, k: Key)
    ensures HasCommit(w, Run(s, CommitHeld(s, keys, t, c)), k, t) ==>
              HasCommit(w, s, k, t) || (k in keys && s.LockedBy(k, t))
    decreases |keys|
  {
    if keys == [] {
      RunNothing(s);
    } else {
      hide Run, CommitHeld;
      CommitHeldUnfolds(s, keys, t, c);
      if s.LockedBy(keys[0], t) {
        CommitsOnlyHeld(w, Apply(s, Seal(keys[0], t, c, s.locks[keys[0]].op)), keys[1..], t, c, k);
      } else {
        CommitsOnlyHeld(w, s, keys[1..], t, c, k);
      }
    }
  }

  /** A commit of some held key, with the primary neither committed nor committed by it, loses the primary. */
  lemma CommitLosesPrimary(w: World, s: Store, keys: seq<Key>, t: Ts, k: Key)
    requires Ready(w, s) && t in w.txns && k in keys && s.LockedBy(k, t)
    requires !CommitPermitted(w, s, keys, t, PrimaryFirst(t))
    ensures !PrimaryDecides(w, Run(s, CommitHeld(s, keys, t, w.txns[t].commitTs)), t)
  {
    hide Run, CommitHeld, Separate, Distinct;
    var c, p := w.txns[t].commitTs, w.txns[t].primary;
    var s' := Run(s, CommitHeld(s, keys, t, c));
    LockKnown(w, s, k);
    CommitHeldSeals(s, keys, t, c, k);
    CommitsOnlyHeld(w, s, keys, t, c, p);
    assert !FollowsPrimary(w, s', s'.writes[Version(k, c)]);
  }

  // ---------- Rollbacks ----------

  lemma {:induction false} RollbacksOnlyListed(s: Store, keys: seq<Key>, t: Ts, k: Key)
    ensures HasRollback(Run(s, Rollbacks(s, keys, t)), k, t) ==> HasRollback(s, k, t) || k in keys
    decreases |keys|
  {
    hide Run, Rollbacks;
    if keys == [] {
      RollNothingBack(s, t);
    } else {
      RollbacksUnfold(s, keys, t);
      RollbacksOnlyListed(Apply(s, RollbackKey(s, keys[0], t)), keys[1..], t, k);
    }
  }

  lemma RollbackLosesPrimary(w: World, s: Store, keys: seq<Key>, t: Ts)
    requires Ready(w, s) && Belongs(w, RollbackCall(keys, t)) && keys != []
    requires !Disciplined(w, s, RollbackCall(keys, t), PrimaryFirst(t))
    ensures !PrimaryDecides(w, Run(s, Rollbacks(s, keys, t)), t)
  {
    hide Run, Rollbacks, Ready;
    var s', p := Run(s, Rollbacks(s, keys, t)), w.txns[t].primary;
    if p in keys {
      AnyClientFate(w, s, RollbackCall(keys, t), p, t);
      RollbackReleases(s, keys, t, p);
      assert !OneVerdict(w, s', t);
    } else {
      RollbackReleases(s, keys, t, keys[0]);
      RollbacksOnlyListed(s, keys, t, p);
      assert !FollowsPrimary(w, s', s'.writes[Version(keys[0], t)]);
    }
  }

  // ---------- Every call but a prewrite ----------

  lemma StatusLosesPrimary(w: World, s: Store, key: Key, t: Ts, at: u64)
    requires Ready(w, s) && key in w.keys && Edits(s, StatusCall(key, t, at)) != [] && t in w.txns
    requires key != w.txns[t].primary && !HasRollback(s, w.txns[t].primary, t)
    ensures !PrimaryDecides(w, Run(s, Edits(s, StatusCall(key, t, at))), t)
  {
    hide Lookup, Run, Ready;
    var e := Abort(key, t);
    RunOne(s, e);
    assert !FollowsPrimary(w, Apply(s, e), Apply(s, e).writes[Version(key, t)]);
  }

  /** A complete commit, batched commit, rollback, heartbeat, status check, resolution or read keeps a
      transaction's primary in charge exactly when the discipline permits it. */
  lemma KeepsPrimaryExactly(w: World, s: Store, c: Call, u: Ts)
    requires Ready(w, s) && PrimaryDecides(w, s, u) && u in w.txns && Belongs(w, c)
    requires !c.PrewriteCall? && !c.BatchPrewriteCall? && !c.Interrupted?
    ensures PrimaryDecides(w, Run(s, Edits(s, c)), u) <==> Permitted(w, s, c, PrimaryFirst(u))
  {
    if Permitted(w, s, c, PrimaryFirst(u)) {
      PermittedKeeps(w, s, c, u);
    } else {
      UndisciplinedLoses(w, s, c, u);
    }
  }

  lemma UndisciplinedLoses(w: World, s: Store, c: Call, u: Ts)
    requires Ready(w, s) && PrimaryDecides(w, s, u) && u in w.txns && Belongs(w, c)
    requires !c.PrewriteCall? && !c.BatchPrewriteCall? && !c.Interrupted?
    requires Edits(s, c) != [] && !Disciplined(w, s, c, PrimaryFirst(u))
    ensures !PrimaryDecides(w, Run(s, Edits(s, c)), u)
  {
    hide Run, CommitHeld, BatchCommit, Rollbacks, Lookup, Resolve, PrimaryDecides, Ready, Covered;
    match c
    case CommitCall(keys, t, ts) => CommitLosesPrimary(w, s, keys, t, keys[0]);
    case BatchCommitCall(keys, t, ts) =>
      var k := SomeHeld(s, keys, t, ts);
      CommitLosesPrimary(w, s, keys, t, k);
      CommitsAgree(s, s, keys, t, ts);
    case RollbackCall(keys, t) =>
      RollNothingBackEdits(s, t);
      RollbackLosesPrimary(w, s, keys, t);
    case StatusCall(key, t, at) => StatusLosesPrimary(w, s, key, t, at);
    case ResolveCall(key, now) =>
      LockedIsPut(w, s, key);
      ResolveKeepsAtomicityExactly(w, s, key, s.locks[key], now);
    case GetCall(key, readTs, now) =>
      ResolveKeepsAtomicityExactly(w, s, key, AssumedLock(s.locks[key].primary, s.locks[key].start), now);
    case _ =>
  }

  lemma LockedIsPut(w: World, s: Store, key: Key)
    requires Ready(w, s) && key in s.locks
    ensures s.locks[key].op != Rollback
  {
    LockKnown(w, s, key);
  }

  lemma RollNothingBackEdits(s: Store, t: Ts)
    ensures Rollbacks(s, [], t) == []
  {
  }

  lemma SomeHeld(s: Store, keys: seq<Key>, t: Ts, ts: Ts) returns (k: Key)
    requires BatchCommit(s, keys, t, ts) != []
    ensures k in keys && s.LockedBy(k, t)
  {
    if forall j | j in keys :: !s.LockedBy(j, t) { NothingHeld(s, keys, t, ts); }
    k :| k in keys && s.LockedBy(k, t);
  }

  // ---------- A prewrite ----------

  /** Laying another transaction's lock on a key that is not locked changes nothing for this one. */
  lemma LayElsewhere(w: World, s: Store, m: Mutation, t: Ts, q: Key, ttl: u64, u: Ts)
    requires t != u && Held(s, {m.key}, t)
    ensures PrimaryDecides(w, Apply(s, Lay(m, t, q, ttl)), u) <==> PrimaryDecides(w, s, u)
  {
    var s' := Apply(s, Lay(m, t, q, ttl));
    assert m.key in {m.key};
    assert forall k :: s'.LockedBy(k, u) <==> s.LockedBy(k, u);
    assert forall k | s.LockedBy(k, u) :: s'.locks[k] == s.locks[k];
    assert forall k :: Touched(w, s', k, u) <==> Touched(w, s, k, u);
    if PrimaryDecides(w, s', u) {
      forall k | k in s.locks && s.locks[k].start == u ensures LockFollowsPrimary(w, s, s.locks[k]) {
        assert LockFollowsPrimary(w, s', s'.locks[k]);
      }
    }
    if PrimaryDecides(w, s, u) {
      forall k | k in s'.locks && s'.locks[k].start == u ensures LockFollowsPrimary(w, s', s'.locks[k]) {
        assert LockFollowsPrimary(w, s, s.locks[k]);
      }
    }
  }

  /** A transaction's own lock leaves its primary in charge only if it names the planned primary and is
      on it, or finds it touched. */
  lemma LayFollows(w: World, s: Store, m: Mutation, t: Ts, q: Key, ttl: u64)
    requires t in w.txns && PrimaryDecides(w, Apply(s, Lay(m, t, q, ttl)), t)
    ensures q == w.txns[t].primary && (m.key == q || Touched(w, s, q, t))
  {
    var s' := Apply(s, Lay(m, t, q, ttl));
    assert LockFollowsPrimary(w, s', s'.locks[m.key]);
  }

  /** Clearing leaves no new trace of the caller. */
  lemma ClearTouchesNone(w: World, s: Store, key: Key, t: Ts, now: Readings, q: Key)
    requires Ready(w, s) && t in w.txns
    ensures Touched(w, Run(s, Clear(s, key, t, now).edits), q, t) ==> Touched(w, s, q, t)
  {
    hide Clear, Run, Separate;
    ClearLegal(w, s, key, t, now, SnapshotAt(MAX_TS));
    ClearIsForeign(s, key, t, now, {});
    ForeignTrace(w, s, Clear(s, key, t, now).edits, t);
    ForeignKeepsHeld(s, Clear(s, key, t, now).edits, t, {}, {});
  }

  /** An accepted prewrite of a key keeps a transaction's primary in charge exactly when: if it is the
      transaction's own, it names the planned primary and is on it or finds it touched; and if it finds
      the transaction's lock in its way, that lock is covered. */
  lemma PrewriteKeepsPrimaryExactly(w: World, s: Store, m: Mutation, t: Ts, q: Key, ttl: u64, now: Readings, u: Ts)
    requires Ready(w, s) && PrimaryDecides(w, s, u) && t in w.txns && q in w.keys && m.key in w.keys
    requires PrewriteKey(s, m, t, q, ttl, now).result.Accepted?
    ensures PrimaryDecides(w, Run(s, PrewriteKey(s, m, t, q, ttl, now).edits), u)
            <==> LayPermitted(w, s, m.key, t, q, now, PrimaryFirst(u))
  {
    hide Clear, Conflict, Run, PrimaryDecides, Ready, Covered, Touched, Lookup;
    var es, lay := Clear(s, m.key, t, now).edits, Lay(m, t, q, ttl);
    var s1 := Run(s, es);
    RunConcat(s, es, [lay]);
    RunOne(s1, lay);
    if LayPermitted(w, s, m.key, t, q, now, PrimaryFirst(u)) {
      PrewriteKeyLegal(w, s, m, t, q, ttl, now, PrimaryFirst(u));
      InvariantRun(w, s, PrewriteKey(s, m, t, q, ttl, now).edits, PrimaryFirst(u));
    } else if t == u {
      ClearTouchesNone(w, s, m.key, t, now, q);
      if PrimaryDecides(w, Apply(s1, lay), u) { LayFollows(w, s1, m, t, q, ttl); }
    } else {
      ClearUnlocks(s, m.key, t, now);
      LayElsewhere(w, s1, m, t, q, ttl, u);
      ClearLosesPrimary(w, s, m.key, t, now, u);
    }
  }

  lemma ClearLosesPrimary(w: World, s: Store, key: Key, t: Ts, now: Readings, u: Ts)
    requires Ready(w, s) && PrimaryDecides(w, s, u) && !ClearPermitted(s, key, t, now, PrimaryFirst(u))
    ensures !PrimaryDecides(w, Run(s, Clear(s, key, t, now).edits), u)
  {
    hide Resolve, Run, PrimaryDecides, Ready, Covered;
    LockedIsPut(w, s, key);
    ResolveKeepsAtomicityExactly(w, s, key, s.locks[key], now);
  }

  // ---------- A whole prewrite, for its own transaction ----------

  lemma {:induction false} ClearAllForeign(s: Store, ms: seq<Mutation>, t: Ts, clock: Clock)
    ensures Foreign(ClearAll(s, ms, t, clock).edits, t, {})
    decreases |ms|
  {
    hide Clear, Conflict, Run;
    if ms != [] {
      ClearIsForeign(s, ms[0].key, t, clock(ms[0].key), {});
      ClearAllForeign(Run(s, Clear(s, ms[0].key, t, clock(ms[0].key)).edits), ms[1..], t, clock);
    }
  }

  /** The store when all locks in the way are cleared: the primary is in charge, and no trace is new. */
  lemma AllCleared(w: World, s: Store, ms: seq<Mutation>, t: Ts, clock: Clock, q: Key)
    requires Ready(w, s) && PrimaryDecides(w, s, t) && t in w.txns
    ensures var s1 := Run(s, ClearAll(s, ms, t, clock).edits);
            PrimaryDecides(w, s1, t) && (Touched(w, s1, q, t) <==> Touched(w, s, q, t))
  {
    hide ClearAll, Run, PrimaryDecides, Separate, ClearAllPermitted;
    var es := ClearAll(s, ms, t, clock).edits;
    OwnClearFree(s, ms, t, clock, |es|, PrimaryFirst(t));
    OwnClearFree(s, ms, t, clock, |es|, SnapshotAt(MAX_TS));
    ClearAllLegal(w, s, ms, t, clock, |es|, PrimaryFirst(t));
    ClearAllLegal(w, s, ms, t, clock, |es|, SnapshotAt(MAX_TS));
    TakeAll(es);
    InvariantRun(w, s, es, PrimaryFirst(t));
    FateRun(w, s, es, PrimaryFirst(t), q, t);
    ClearAllForeign(s, ms, t, clock);
    ForeignTrace(w, s, es, t);
    ForeignKeepsHeld(s, es, t, {}, {});
  }

  /** Laying a list of locks leaves the primary in charge exactly when they name it and it is among
      them or touched. */
  lemma LaysFollow(w: World, s: Store, ms: seq<Mutation>, t: Ts, q: Key, ttl: u64)
    requires t in w.txns && PrimaryDecides(w, s, t) && ms != []
    ensures PrimaryDecides(w, Run(s, Staged(ms, t, q, ttl)), t)
            <==> q == w.txns[t].primary && (q in Keys(ms) || Touched(w, s, q, t))
  {
    hide Run, Staged, HasCommit, HasRollback;
    var s', p := Run(s, Staged(ms, t, q, ttl)), w.txns[t].primary;
    LaidStore(s, ms, t, q, ttl);
    forall k | k in Keys(ms) ensures k in s'.locks && s'.locks[k].primary == q { LaidOnKey(s, ms, k, t, q, ttl); }
    SameRecords(w, s, s', t);
    assert ms[0] in ms && ms[0].key in Keys(ms);
    if PrimaryDecides(w, s', t) {
      assert LockFollowsPrimary(w, s', s'.locks[ms[0].key]);
    }
    if q == p && (q in Keys(ms) || Touched(w, s, q, t)) {
      forall k | k in s'.locks && s'.locks[k].start == t ensures LockFollowsPrimary(w, s', s'.locks[k]) {
        if k !in Keys(ms) { assert LockFollowsPrimary(w, s, s.locks[k]); }
      }
      forall v | v in s'.writes && s'.writes[v].start == t ensures FollowsPrimary(w, s', s'.writes[v]) {
        assert FollowsPrimary(w, s, s.writes[v]);
      }
    }
  }

  lemma SameRecords(w: World, a: Store, b: Store, t: Ts)
    requires a.writes == b.writes
    ensures forall k :: HasCommit(w, a, k, t) <==> HasCommit(w, b, k, t)
    ensures forall k :: HasRollback(a, k, t) <==> HasRollback(b, k, t)
  {
  }

  /** An accepted prewrite of a whole list keeps its own transaction's primary in charge exactly when it
      names the planned primary, and that is on the list, in whatever place, or already touched. */
  lemma OwnPrewriteKeepsPrimaryExactly(w: World, s: Store, ms: seq<Mutation>, t: Ts, q: Key, ttl: u64, clock: Clock)
    requires Ready(w, s) && PrimaryDecides(w, s, t) && t in w.txns && ms != []
    requires Prewrite(s, ms, t, q, ttl, clock).result.Accepted?
    ensures PrimaryDecides(w, Run(s, Prewrite(s, ms, t, q, ttl, clock).edits), t)
            <==> q == w.txns[t].primary && (q in Keys(ms) || Touched(w, s, q, t))
  {
    hide Prewrite, ClearAll, Run, Staged, PrimaryDecides, Ready, Touched;
    var cleared := ClearAll(s, ms, t, clock).edits;
    BatchPrewriteRefines(s, ms, t, q, ttl, clock);
    RunConcat(s, cleared, Staged(ms, t, q, ttl));
    AllCleared(w, s, ms, t, clock, q);
    LaysFollow(w, Run(s, cleared), ms, t, q, ttl);
  }
}
