/**
 What a transaction writes is what is read at its commit timestamp, whoever commits it and whatever
 happens between.
 */
module Written {
  import opened Bytes
  import opened Wrappers
  import opened KeyEncoder
  import opened Records
  import opened Store
  import opened Txn
  import opened Protocol
  import opened Runs
  import opened Resolver
  import opened Batch
  import opened Calls
  import opened Theorems

  /** The store carries the mutation of the transaction: in its lock, in its commit record and in its value. */
  ghost predicate Carries(w: World, s: Store, m: Mutation, t: Ts) {
    && (s.LockedBy(m.key, t) ==> s.locks[m.key].op == m.Op())
    && (HasCommit(w, s, m.key, t) ==> s.writes[Version(m.key, w.txns[t].commitTs)].op == m.Op())
    && (m.PutValue? ==> Version(m.key, t) in s.data && s.data[Version(m.key, t)] == m.value)
  }

  predicate Relays(e: Edit, key: Key, t: Ts) {
    e.Lay? && e.mutation.key == key && e.start == t
  }

  lemma CarriesStep(w: World, s: Store, e: Edit, m: Mutation, t: Ts)
    requires Distinct(w) && Sound(w, s) && Enabled(w, s, e) && Obeys(w, s, e, TrueOps)
    requires Carries(w, s, m, t) && !Relays(e, m.key, t)
    ensures Carries(w, Apply(s, e), m, t)
  {
    hide Distinct, Sound;
    if t in w.txns && !e.Lay? && !e.Extend? { PairDistinct(w, e.start, t); }
  }

  lemma {:induction false} CarriesRun(w: World, s: Store, es: seq<Edit>, m: Mutation, t: Ts)
    requires Distinct(w) && Sound(w, s) && Legal(w, s, es, TrueOps) && Carries(w, s, m, t)
    requires forall i | 0 <= i < |es| :: !Relays(es[i], m.key, t)
    ensures Carries(w, Run(s, es), m, t)
    decreases |es|
  {
    hide Distinct, Sound, Carries, Enabled, Obeys, Apply;
    if es != [] {
      SoundStep(w, s, es[0]);
      CarriesStep(w, s, es[0], m, t);
      CarriesRun(w, Apply(s, es[0]), es[1..], m, t);
    }
  }

  // ---------- Only a prewrite lays ----------

  /** The call prewrites the key for the transaction. */
  predicate Prewrites(c: Call, key: Key, t: Ts) {
    match c
    case PrewriteCall(ms, start, _, _, _) => start == t && key in Keys(ms)
    case BatchPrewriteCall(ms, start, _, _, _) => start == t && key in Keys(ms)
    case Interrupted(call, _) => Prewrites(call, key, t)
    case _ => false
  }

  ghost predicate NoneRelays(es: seq<Edit>, key: Key, t: Ts) {
    forall i | 0 <= i < |es| :: !Relays(es[i], key, t)
  }

  lemma ClearRelaysNone(s: Store, k: Key, start: Ts, now: Readings, key: Key, t: Ts)
    ensures NoneRelays(Clear(s, k, start, now).edits, key, t)
  {
    hide Clear;
    ClearIsForeign(s, k, start, now, {});
  }

  lemma {:induction false} PrewriteRelaysNone(s: Store, ms: seq<Mutation>, start: Ts, p: Key, ttl: u64, clock: Clock,
                                              key: Key, t: Ts)
    requires start != t || key !in Keys(ms)
    ensures NoneRelays(Prewrite(s, ms, start, p, ttl, clock).edits, key, t)
    decreases |ms|
  {
    hide Clear, Conflict, Run;
    if ms != [] {
      var o := PrewriteKey(s, ms[0], start, p, ttl, clock(ms[0].key));
      ClearRelaysNone(s, ms[0].key, start, clock(ms[0].key), key, t);
      assert ms[0] in ms && Keys(ms[1..]) <= Keys(ms);
      PrewriteRelaysNone(Run(s, o.edits), ms[1..], start, p, ttl, clock, key, t);
    }
  }

  lemma {:induction false} ClearAllRelaysNone(s: Store, ms: seq<Mutation>, start: Ts, clock: Clock, key: Key, t: Ts)
    ensures NoneRelays(ClearAll(s, ms, start, clock).edits, key, t)
    decreases |ms|
  {
    hide Clear, Conflict, Run;
    if ms != [] {
      ClearRelaysNone(s, ms[0].key, start, clock(ms[0].key), key, t);
      ClearAllRelaysNone(Run(s, Clear(s, ms[0].key, start, clock(ms[0].key)).edits), ms[1..], start, clock, key, t);
    }
  }

  lemma {:induction false} CommitRelaysNone(s: Store, keys: seq<Key>, start: Ts, ts: Ts, key: Key, t: Ts)
    ensures NoneRelays(CommitHeld(s, keys, start, ts), key, t) && NoneRelays(BatchCommit(s, keys, start, ts), key, t)
    decreases |keys|
  {
    hide Apply;
    if keys != [] {
      CommitRelaysNone(s, keys[1..], start, ts, key, t);
      if s.LockedBy(keys[0], start) {
        CommitRelaysNone(Apply(s, Seal(keys[0], start, ts, s.locks[keys[0]].op)), keys[1..], start, ts, key, t);
      }
    }
  }

  lemma {:induction false} RollbackRelaysNone(s: Store, keys: seq<Key>, start: Ts, key: Key, t: Ts)
    ensures NoneRelays(Rollbacks(s, keys, start), key, t)
    decreases |keys|
  {
    hide Apply;
    if keys != [] { RollbackRelaysNone(Apply(s, RollbackKey(s, keys[0], start)), keys[1..], start, key, t); }
  }

  /** A call that does not prewrite the key for the transaction lays nothing on it. */
  lemma {:induction false} CallRelaysNone(w: World, s: Store, c: Call, key: Key, t: Ts)
    requires !Prewrites(c, key, t)
    ensures NoneRelays(Edits(s, c), key, t) && NoneRelays(Trace(w, s, c, TrueOps), key, t)
  {
    hide Prewrite, ClearAll, CommitHeld, BatchCommit, Rollbacks, Lookup, Run, Staged;
    match c
    case PrewriteCall(ms, start, p, ttl, clock) => PrewriteRelaysNone(s, ms, start, p, ttl, clock, key, t);
    case BatchPrewriteCall(ms, start, p, ttl, clock) =>
      PrewriteRelaysNone(s, ms, start, p, ttl, clock, key, t);
      ClearAllRelaysNone(s, ms, start, clock, key, t);
      StagedRelaysNone(ms, start, p, ttl, key, t);
    case CommitCall(keys, start, ts) =>
      CommitRelaysNone(s, keys, start, ts, key, t);
      CommitRelaysNone(s, PrimaryAhead(w, keys, start), start, ts, key, t);
    case BatchCommitCall(keys, start, ts) =>
      CommitRelaysNone(s, keys, start, ts, key, t);
      CommitRelaysNone(s, PrimaryAhead(w, keys, start), start, ts, key, t);
    case RollbackCall(keys, start) =>
      RollbackRelaysNone(s, keys, start, key, t);
      RollbackRelaysNone(s, PrimaryAhead(w, keys, start), start, key, t);
    case Interrupted(call, n) =>
      CallRelaysNone(w, s, call, key, t);
      CutRelaysNone(s, call, n, key, t);
    case _ =>
  }

  lemma StagedRelaysNone(ms: seq<Mutation>, start: Ts, p: Key, ttl: u64, key: Key, t: Ts)
    requires start != t || key !in Keys(ms)
    ensures NoneRelays(Staged(ms, start, p, ttl), key, t)
  {
    forall i | 0 <= i < |ms| ensures !Relays(Staged(ms, start, p, ttl)[i], key, t) { assert ms[i] in ms; }
  }

  lemma CutRelaysNone(s: Store, c: Call, n: nat, key: Key, t: Ts)
    requires NoneRelays(Edits(s, c), key, t)
    ensures NoneRelays(Edits(s, Interrupted(c, n)), key, t)
  {
    hide Prewrite, ClearAll, CommitHeld, BatchCommit, Rollbacks, Lookup, Run, Staged, Resolve, CheckStatus, Get, Commit,
         Heartbeat, BatchPrewrite;
    if c.BatchPrewriteCall? { ClearAllRelaysNone(s, c.ms, c.start, c.clock, key, t); }
  }

  lemma {:induction false} TraceRelaysNone(w: World, s: Store, cs: seq<Call>, key: Key, t: Ts)
    requires forall i | 0 <= i < |cs| :: !Prewrites(cs[i], key, t)
    ensures NoneRelays(FullTrace(w, s, cs, TrueOps), key, t)
    decreases |cs|
  {
    hide Trace, Edits, Run, Prewrites;
    if cs != [] {
      CallRelaysNone(w, s, cs[0], key, t);
      TraceRelaysNone(w, Run(s, Edits(s, cs[0])), cs[1..], key, t);
    }
  }

  // ---------- The theorem ----------

  function Wrote(m: Mutation): Option<Value> {
    if m.PutValue? then Some(m.value) else None
  }

  lemma AcceptedCarries(w: World, s: Store, ms: seq<Mutation>, t: Ts, p: Key, ttl: u64, clock: Clock, key: Key)
    requires Ready(w, s) && t in w.txns && p in w.keys && Keys(ms) <= w.keys && key in Keys(ms)
    requires Prewrite(s, ms, t, p, ttl, clock).result.Accepted?
    ensures var s1 := Run(s, Prewrite(s, ms, t, p, ttl, clock).edits);
            && Ready(w, s1) && LastOn(ms, key).Some? && LastOn(ms, key).value.key == key
            && Carries(w, s1, LastOn(ms, key).value, t)
  {
    hide Prewrite, Run, Separate, Distinct;
    PrewriteLays(s, ms, t, p, ttl, clock, key);
    LastOnKey(ms, key);
    var es := Prewrite(s, ms, t, p, ttl, clock).edits;
    AnyPrewrite(w, s, ms, t, p, ttl, clock, |es|);
    PrewriteLegal(w, s, ms, t, p, ttl, clock, |es|, AnyClient);
    TakeAll(es);
    InvariantRun(w, s, Prewrite(s, ms, t, p, ttl, clock).edits, AnyClient);
    LockKnown(w, Run(s, Prewrite(s, ms, t, p, ttl, clock).edits), key);
  }

  lemma {:induction false} LastOnKey(ms: seq<Mutation>, key: Key)
    ensures LastOn(ms, key).Some? ==> LastOn(ms, key).value.key == key
  {
    if ms != [] { LastOnKey(ms[..|ms| - 1], key); }
  }

  /** A transaction's prewrite is accepted.  After any further calls that commit locks with their own
      operation and do not prewrite the key for it again: if the key is committed by the transaction,
      whoever committed it, a read at the commit timestamp that is not blocked answers the value put
      last on the key, or nothing if the last mutation deleted it. */
  lemma WrittenIsRead(w: World, s: Store, ms: seq<Mutation>, t: Ts, p: Key, ttl: u64, clock: Clock,
                      cs: seq<Call>, key: Key)
    requires Ready(w, s) && t in w.txns && p in w.keys && Keys(ms) <= w.keys && key in Keys(ms)
    requires Prewrite(s, ms, t, p, ttl, clock).result.Accepted?
    requires var s1 := Run(s, Prewrite(s, ms, t, p, ttl, clock).edits);
             && Allowed(w, s1, cs, TrueOps) && HasCommit(w, After(s1, cs), key, t)
    requires forall i | 0 <= i < |cs| :: !Prewrites(cs[i], key, t)
    ensures var s2 := After(Run(s, Prewrite(s, ms, t, p, ttl, clock).edits), cs);
            var m := LastOn(ms, key);
            && m.Some? && ReadVersion(s2, key, w.txns[t].commitTs) == Ok(Wrote(m.value))
            && (Read(s2, key, w.txns[t].commitTs).Ok? ==> Read(s2, key, w.txns[t].commitTs) == Ok(Wrote(m.value)))
  {
    hide Prewrite, Run, Separate, Distinct, Sound, Carries, Allowed, After, FullTrace, Lookup, Prewrites;
    var s1 := Run(s, Prewrite(s, ms, t, p, ttl, clock).edits);
    AcceptedCarries(w, s, ms, t, p, ttl, clock, key);
    var m := LastOn(ms, key).value;
    RunLegal(w, s1, cs, TrueOps);
    TraceRelaysNone(w, s1, cs, key, t);
    CarriesRun(w, s1, FullTrace(w, s1, cs, TrueOps), m, t);
    ReadsCarried(w, After(s1, cs), m, t);
  }

  lemma ReadsCarried(w: World, s: Store, m: Mutation, t: Ts)
    requires Ready(w, s) && t in w.txns && Carries(w, s, m, t) && HasCommit(w, s, m.key, t)
    ensures ReadVersion(s, m.key, w.txns[t].commitTs) == Ok(Wrote(m))
  {
    hide Lookup, Ready;
    FoundAtItself(w, s, m.key, w.txns[t].commitTs);
  }

  /** In particular, an accepted commit of keys still held makes them readable for good. */
  lemma CommittedIsRead(w: World, s: Store, ms: seq<Mutation>, t: Ts, p: Key, ttl: u64, clock: Clock,
                        before: seq<Call>, keys: seq<Key>, later: seq<Call>, key: Key)
    requires Ready(w, s) && t in w.txns && p in w.keys && Keys(ms) <= w.keys && key in Keys(ms) && key in keys
    requires Prewrite(s, ms, t, p, ttl, clock).result.Accepted?
    requires var s1 := Run(s, Prewrite(s, ms, t, p, ttl, clock).edits);
             var c := CommitCall(keys, t, w.txns[t].commitTs);
             && Allowed(w, s1, before + [c] + later, TrueOps)
             && var s2 := After(s1, before);
                s2.LockedBy(key, t) && Commit(s2, keys, t, w.txns[t].commitTs).result.Accepted?
    requires forall i | 0 <= i < |before| :: !Prewrites(before[i], key, t)
    requires forall i | 0 <= i < |later| :: !Prewrites(later[i], key, t)
    ensures var s1 := Run(s, Prewrite(s, ms, t, p, ttl, clock).edits);
            var s3 := After(s1, before + [CommitCall(keys, t, w.txns[t].commitTs)] + later);
            LastOn(ms, key).Some? && ReadVersion(s3, key, w.txns[t].commitTs) == Ok(Wrote(LastOn(ms, key).value))
  {
    hide Prewrite, Run, Separate, Distinct, Sound, Allowed, After, Lookup, Prewrites, Carries, ReadVersion;
    var s1 := Run(s, Prewrite(s, ms, t, p, ttl, clock).edits);
    var c := CommitCall(keys, t, w.txns[t].commitTs);
    var cs := before + [c] + later;
    AcceptedCarries(w, s, ms, t, p, ttl, clock, key);
    assert !Prewrites(c, key, t) by { CommitPrewritesNone(keys, t, w.txns[t].commitTs, key); }
    forall i | 0 <= i < |cs| ensures !Prewrites(cs[i], key, t) {}
    CommitsForGood(w, s1, before, c, later, key);
    WrittenIsRead(w, s, ms, t, p, ttl, clock, cs, key);
  }

  lemma CommitPrewritesNone(keys: seq<Key>, t: Ts, ts: Ts, key: Key)
    ensures !Prewrites(CommitCall(keys, t, ts), key, t)
  {
  }

  lemma CommitsForGood(w: World, s: Store, before: seq<Call>, c: Call, later: seq<Call>, key: Key)
    requires Ready(w, s) && Allowed(w, s, before + [c] + later, TrueOps)
    requires c.CommitCall? && c.start in w.txns && c.commitTs == w.txns[c.start].commitTs && key in c.keys
    requires var s2 := After(s, before);
             s2.LockedBy(key, c.start) && Commit(s2, c.keys, c.start, c.commitTs).result.Accepted?
    ensures HasCommit(w, After(s, before + [c] + later), key, c.start)
  {
    hide Run, Separate, Distinct, Sound, Lookup, Permitted, CommitHeld, Trace, FullTrace;
    var s2 := After(s, before);
    assert before + [c] + later == before + ([c] + later);
    AllowedConcat(w, s, before, [c] + later, TrueOps);
    RunLegal(w, s, before, TrueOps);
    assert ([c] + later)[1..] == later && ([c] + later)[0] == c;
    var s3 := Run(s2, Edits(s2, c));
    CommitHeldSeals(s2, c.keys, c.start, c.commitTs, key);
    CallLegal(w, s2, c, TrueOps);
    TraceAgrees(w, s2, c, TrueOps);
    InvariantRun(w, s2, Trace(w, s2, c, TrueOps), TrueOps);
    LockKnown(w, s2, key);
    RunLegal(w, s3, later, TrueOps);
    FateRun(w, s3, FullTrace(w, s3, later, TrueOps), TrueOps, key, c.start);
  }

  lemma {:induction false} AllowedConcat(w: World, s: Store, a: seq<Call>, b: seq<Call>, rule: Rule)
    requires Allowed(w, s, a + b, rule)
    ensures Allowed(w, s, a, rule) && Allowed(w, After(s, a), b, rule) && After(s, a + b) == After(After(s, a), b)
    decreases |a|
  {
    hide Edits, Run, Permitted;
    if a == [] {
      assert a + b == b;
    } else {
      assert (a + b)[1..] == a[1..] + b && (a + b)[0] == a[0];
      AllowedConcat(w, Run(s, Edits(s, a[0])), a[1..], b, rule);
    }
  }
}
