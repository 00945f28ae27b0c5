/** Where the protocol falls short: for first-committer-wins and for reads, the exact condition on a single call. */
module Limits {
  import opened Bytes
  import opened Wrappers
  import opened KeyEncoder
  import opened Records
  import opened Store
  import opened Txn
  import opened Protocol
  import opened Runs
  import opened Resolver
  import opened Batch
  import opened Calls
  import opened Theorems

  // ---------- A prewrite that rolls a lock forward past its own start ----------

  /** The conflict check is not repeated after a lock is rolled forward, so an accepted prewrite
      keeps first-committer-wins exactly when it does not roll a lock forward past its start. */
  lemma PrewriteKeepsFirstCommitterExactly(w: World, s: Store, m: Mutation, t: Ts, p: Key, ttl: u64, now: Readings)
    requires Ready(w, s) && FirstCommitterWon(s) && t in w.txns && p in w.keys && m.key in w.keys
    requires PrewriteKey(s, m, t, p, ttl, now).result.Accepted?
    ensures FirstCommitterWon(Run(s, PrewriteKey(s, m, t, p, ttl, now).edits)) <==> !Overtaken(w, s, m.key, t)
  {
    hide Clear, Conflict, Run, Legal, FirstCommitterWon, AllBelow;
    var es, lay := Clear(s, m.key, t, now).edits, Lay(m, t, p, ttl);
    var s1 := Run(s, es);
    ClearLegal(w, s, m.key, t, now, FreshLocks);
    InvariantRun(w, s, es, FreshLocks);
    Cleared(w, s, m.key, t, now);
    ConflictScan(w, s, m.key, t);
    ClearDecides(w, s, m.key, t, now);
    RunConcat(s, es, [lay]);
    RunOne(s1, lay);
    LayFirstCommitter(w, s1, m, t, p, ttl);
    ClearForward(w, s, m.key, t, now);
  }

  lemma LayFirstCommitter(w: World, s: Store, m: Mutation, t: Ts, p: Key, ttl: u64)
    requires Ready(w, s) && FirstCommitterWon(s) && t in w.txns && p in w.keys && m.key in w.keys
    requires !HasRecord(w, s, m.key, t) && Held(s, {m.key}, t)
    ensures FirstCommitterWon(Apply(s, Lay(m, t, p, ttl))) <==> AllCommitsBelow(s, m.key, t)
  {
    var e := Lay(m, t, p, ttl);
    assert m.key in {m.key};
    if AllCommitsBelow(s, m.key, t) {
      FirstCommitterStep(w, s, e);
    } else {
      var v :| v in s.writes && v.key == m.key && s.writes[v].op != Rollback && v.ts >= t;
      assert !Above(Apply(s, e), m.key, v);
    }
  }

  lemma ClearForward(w: World, s: Store, key: Key, t: Ts, now: Readings)
    requires Ready(w, s) && AllBelow(s, key, t)
    ensures AllCommitsBelow(Run(s, ClearDirectly(w, s, key, t, now)), key, t) <==> !Overtaken(w, s, key, t)
  {
    var es := ClearDirectly(w, s, key, t, now);
    if key in s.locks && s.locks[key].start != t {
      var l := s.locks[key];
      assert LockOk(w, s, key, l);
      if HasCommit(w, s, l.primary, l.start) {
        RunOne(s, es[0]);
        assert es == [es[0]];
        var v := Version(key, w.txns[l.start].commitTs);
        assert v in Apply(s, es[0]).writes;
      } else {
        BelowTrace(s, es, key, t);
      }
    }
  }

  /** All commits of a store are apart: each pair on a key obeys first-committer-wins. */
  ghost predicate CommitsApart(s: Store) {
    forall a, b | a in s.writes && b in s.writes :: Apart(s, a, b)
  }

  /** The commit is apart from one at c by a transaction started at t. */
  predicate ApartFrom(s: Store, v: Version, t: Ts, c: Ts)
    requires v in s.writes
  {
    (v.ts < c ==> v.ts < t) && (c < v.ts ==> c < s.writes[v].start)
  }

  lemma SealApart(w: World, s: Store, key: Key, t: Ts, op: OpType)
    requires Distinct(w) && Sound(w, s) && CommitsApart(s) && t in w.txns && op != Rollback
    requires !HasRecord(w, s, key, t)
    ensures CommitsApart(Apply(s, Seal(key, t, w.txns[t].commitTs, op))) <==>
            forall v | CommittedAt(s, v) && v.key == key :: ApartFrom(s, v, t, w.txns[t].commitTs)
  {
    hide Distinct, Sound;
    var c := w.txns[t].commitTs;
    var e, latest := Seal(key, t, c, op), Version(key, c);
    var s' := Apply(s, e);
    assert latest !in s.writes by {
      if latest in s.writes {
        RecordKnown(w, s, latest);
        PairDistinct(w, t, s.writes[latest].start);
      }
    }
    if CommitsApart(s') {
      forall v | CommittedAt(s, v) && v.key == key ensures ApartFrom(s, v, t, c) {
        assert v != latest && s'.writes[v] == s.writes[v];
        assert Apart(s', v, latest) && Apart(s', latest, v);
      }
    }
    if forall v | CommittedAt(s, v) && v.key == key :: ApartFrom(s, v, t, c) {
      forall a, b | a in s'.writes && b in s'.writes ensures Apart(s', a, b) {
        if a != latest && b != latest { assert Apart(s, a, b); }
        else if a != latest && CommittedAt(s, a) && a.key == key { assert ApartFrom(s, a, t, c); }
        else if b != latest && CommittedAt(s, b) && b.key == key { assert ApartFrom(s, b, t, c); }
      }
    }
  }

  /** Once an accepted prewrite's key is committed, all commits obey first-committer-wins exactly when
      it did not roll forward, past its own start, a lock taken before its commit timestamp. */
  lemma CommitsApartExactly(w: World, s: Store, m: Mutation, t: Ts, p: Key, ttl: u64, now: Readings)
    requires Ready(w, s) && FirstCommitterWon(s) && t in w.txns && p in w.keys && m.key in w.keys
    requires PrewriteKey(s, m, t, p, ttl, now).result.Accepted?
    ensures var s' := Run(s, PrewriteKey(s, m, t, p, ttl, now).edits);
            CommitsApart(Apply(s', Seal(m.key, t, w.txns[t].commitTs, m.Op())))
            <==> !(Overtaken(w, s, m.key, t) && s.locks[m.key].start < w.txns[t].commitTs)
  {
    hide Clear, Conflict, Run, Legal, FirstCommitterWon, AllBelow, CommitsApart, ApartFrom;
    var es, lay := Clear(s, m.key, t, now).edits, Lay(m, t, p, ttl);
    var s1 := Run(s, es);
    ClearLegal(w, s, m.key, t, now, FreshLocks);
    InvariantRun(w, s, es, FreshLocks);
    Cleared(w, s, m.key, t, now);
    ConflictScan(w, s, m.key, t);
    ClearDecides(w, s, m.key, t, now);
    RunConcat(s, es, [lay]);
    RunOne(s1, lay);
    WonIsApart(s1);
    SameWritesApart(s1, Apply(s1, lay), Seal(m.key, t, w.txns[t].commitTs, m.Op()));
    SealApart(w, s1, m.key, t, m.Op());
    ClearedApart(w, s, m.key, t, now);
  }

  lemma WonIsApart(s: Store)
    requires FirstCommitterWon(s)
    ensures CommitsApart(s)
  {
  }

  lemma SameWritesApart(a: Store, b: Store, e: Edit)
    requires a.writes == b.writes && e.Seal?
    ensures CommitsApart(Apply(a, e)) <==> CommitsApart(Apply(b, e))
  {
    var x, y := Apply(a, e), Apply(b, e);
    assert x.writes == y.writes;
    assert forall u, v | u in x.writes && v in x.writes :: Apart(x, u, v) <==> Apart(y, u, v);
  }

  lemma ClearedApart(w: World, s: Store, key: Key, t: Ts, now: Readings)
    requires Ready(w, s) && AllBelow(s, key, t) && t in w.txns
    ensures var s' := Run(s, ClearDirectly(w, s, key, t, now));
            (forall v | CommittedAt(s', v) && v.key == key :: ApartFrom(s', v, t, w.txns[t].commitTs))
            <==> !(Overtaken(w, s, key, t) && s.locks[key].start < w.txns[t].commitTs)
  {
    var es := ClearDirectly(w, s, key, t, now);
    var s' := Run(s, es);
    ClearForward(w, s, key, t, now);
    PairDistinct(w, t, t);
    if Overtaken(w, s, key, t) {
      var l := s.locks[key];
      LockKnown(w, s, key);
      PairDistinct(w, t, l.start);
      assert es == [es[0]];
      RunOne(s, es[0]);
      var v := Version(key, w.txns[l.start].commitTs);
      assert CommittedAt(s', v) && s'.writes[v].start == l.start;
      assert ApartFrom(s', v, t, w.txns[t].commitTs) <==> !(l.start < w.txns[t].commitTs);
    }
  }

  // ---------- A read that invents the operation ----------

  /** The commit of transaction t on the key is the newest the reader could see. */
  ghost predicate NewestBelow(s: Store, key: Key, ts: Ts, readTs: Ts) {
    ts <= readTs && forall v | CommittedAt(s, v) && v.key == key && v.ts <= readTs :: v.ts <= ts
  }

  ghost predicate ReadsInventedPut(w: World, s: Store, key: Key, readTs: Ts) {
    && key in s.locks && s.locks[key].start <= readTs && s.locks[key].op == Delete
    && var l := s.locks[key];
       && HasCommit(w, s, l.primary, l.start) && Version(key, l.start) !in s.data
       && NewestBelow(s, key, w.txns[l.start].commitTs, readTs)
  }

  /** A blocked read resolves the lock as if it were a Put.  On a store whose values are all present
      it answers CorruptedState exactly when that turns a committed Delete into a Put without value. */
  lemma GetCorruptsExactly(w: World, s: Store, key: Key, readTs: Ts, now: Readings)
    requires Ready(w, s) && ValuesPresent(s) && key in w.keys
    ensures Get(s, key, readTs, now).result == Err(Mvcc(CorruptedState)) <==> ReadsInventedPut(w, s, key, readTs)
  {
    hide Lookup, Resolve, Sound, Distinct, Separate;
    if key in s.locks && s.locks[key].start <= readTs {
      var l := s.locks[key];
      LockKnown(w, s, key);
      var lock := AssumedLock(l.primary, l.start);
      ResolveDecides(w, s, key, lock, now);
      if HasCommit(w, s, l.primary, l.start) {
        var e := Seal(key, l.start, w.txns[l.start].commitTs, Put);
        RunOne(s, e);
        SoundStep(w, s, e);
        ForwardedRead(w, s, key, readTs);
      } else {
        DecideKeepsValues(w, s, key, lock, now);
      }
    }
  }

  lemma DecideKeepsValues(w: World, s: Store, key: Key, lock: Lock, now: Readings)
    requires Ready(w, s) && ValuesPresent(s) && Names(s, key, lock) && !HasCommit(w, s, lock.primary, lock.start)
    ensures ValuesPresent(Run(s, Decide(w, s, key, lock, now).edits))
  {
    hide ValuesPresent;
    var es := Decide(w, s, key, lock, now).edits;
    AbortsKeepValues(s, es);
  }

  lemma {:induction false} AbortsKeepValues(s: Store, es: seq<Edit>)
    requires ValuesPresent(s) && forall i | 0 <= i < |es| :: es[i].Abort?
    ensures ValuesPresent(Run(s, es))
    decreases |es|
  {
    if es != [] {
      AbortsKeepValues(Apply(s, es[0]), es[1..]);
    }
  }

  /** After the roll-forward the scan stops at the new record exactly when it is the newest visible one. */
  lemma ForwardedFinds(w: World, s: Store, s': Store, key: Key, c: Ts, readTs: Ts)
    requires Separate(w.keys) && key in w.keys && KeysWithin(s'.writes, w.keys)
    requires CommittedAt(s', Version(key, c))
    requires forall v: Version | v.key == key && v.ts != c :: CommittedAt(s', v) <==> CommittedAt(s, v)
    ensures Lookup(s'.writes, key, readTs, Visible(readTs)) == Some(c) <==> NewestBelow(s, key, c, readTs)
  {
    hide Lookup;
    var test := Visible(readTs);
    LookupIsNewest(s'.writes, w.keys, key, readTs, test);
    forall ts: Ts
      ensures Matches(s'.writes, key, readTs, test, ts) <==> ts <= readTs && CommittedAt(s', Version(key, ts)) {}
    if NewestBelow(s, key, c, readTs) {
      assert IsNewest(s'.writes, key, readTs, test, c);
    } else if c <= readTs {
      var v :| CommittedAt(s, v) && v.key == key && v.ts <= readTs && v.ts > c;
      assert CommittedAt(s', v) && v == Version(key, v.ts) && Matches(s'.writes, key, readTs, test, v.ts);
    }
  }

  lemma ForwardedRead(w: World, s: Store, key: Key, readTs: Ts)
    requires Ready(w, s) && ValuesPresent(s) && key in w.keys && key in s.locks
    requires HasCommit(w, s, s.locks[key].primary, s.locks[key].start) && s.locks[key].start <= readTs
    ensures var l := s.locks[key];
            var s' := Apply(s, Seal(key, l.start, w.txns[l.start].commitTs, Put));
            Read(s', key, readTs) == Err(CorruptedState) <==> ReadsInventedPut(w, s, key, readTs)
  {
    hide Lookup, NewestBelow, Sound, Distinct, Separate;
    var l := s.locks[key];
    var c := w.txns[l.start].commitTs;
    var e := Seal(key, l.start, c, Put);
    var s' := Apply(s, e);
    LockKnown(w, s, key);
    SoundStep(w, s, e);
    SoundWithin(w, s');
    ForwardedFinds(w, s, s', key, c, readTs);
  }
}
