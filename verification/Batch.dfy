/** The batched calls refine the one-by-one calls, on every store. */
module Batch {
  import opened Bytes
  import opened Wrappers
  import opened KeyEncoder
  import opened Records
  import opened Store
  import opened Txn

  // ---------- Clearing a lock ----------

  /** Edits that only resolve locks of other transactions than `start`, on keys outside `held`. */
  ghost predicate Foreign(es: seq<Edit>, start: Ts, held: set<Key>) {
    forall i | 0 <= i < |es| ::
      (es[i].Seal? || es[i].Abort?) && es[i].start != start && es[i].key !in held
  }

  /** Keys on which no other transaction holds a lock. */
  ghost predicate Held(s: Store, keys: set<Key>, start: Ts) {
    forall k | k in keys && k in s.locks :: s.locks[k].start == start
  }

  lemma ClearIsForeign(s: Store, key: Key, start: Ts, now: Readings, held: set<Key>)
    requires Held(s, held, start)
    ensures Foreign(Clear(s, key, start, now).edits, start, held)
  {
    hide Lookup;
  }

  /** Resolving a lock removes it, so a prewrite never finds the key locked again. */
  lemma ClearUnlocks(s: Store, key: Key, start: Ts, now: Readings)
    requires Clear(s, key, start, now).result
    ensures Held(Run(s, Clear(s, key, start, now).edits), {key}, start)
  {
    hide Lookup;
    var es := Clear(s, key, start, now).edits;
    if es != [] {
      var last := es[|es| - 1];
      assert es == es[..|es| - 1] + [last];
      RunConcat(s, es[..|es| - 1], [last]);
      assert Run(s, es) == Apply(Run(s, es[..|es| - 1]), last);
    }
  }

  lemma {:induction false} ForeignKeepsHeld(s: Store, es: seq<Edit>, start: Ts, keys: set<Key>, held: set<Key>)
    requires Foreign(es, start, held) && Held(s, keys, start)
    ensures Held(Run(s, es), keys, start) && Run(s, es).data == s.data
    ensures forall k | k in held :: k in Run(s, es).locks <==> k in s.locks
    ensures forall k | k in Run(s, es).locks :: k in s.locks && Run(s, es).locks[k] == s.locks[k]
    decreases |es|
  {
    if es != [] {
      ForeignKeepsHeld(Apply(s, es[0]), es[1..], start, keys, held);
    }
  }

  // ---------- Laying and clearing commute ----------

  lemma SwapOne(s: Store, lay: Edit, e: Edit)
    requires lay.Lay? && (e.Seal? || e.Abort?) && e.key != lay.mutation.key
    ensures Apply(Apply(s, lay), e) == Apply(Apply(s, e), lay)
  {
    var a, b := Apply(Apply(s, lay), e), Apply(Apply(s, e), lay);
    assert a.locks == b.locks;
  }

  ghost predicate Lays(es: seq<Edit>, keys: set<Key>) {
    forall i | 0 <= i < |es| :: es[i].Lay? && es[i].mutation.key in keys
  }

  lemma {:induction false} SwapPast(s: Store, lays: seq<Edit>, e: Edit, keys: set<Key>)
    requires Lays(lays, keys) && (e.Seal? || e.Abort?) && e.key !in keys
    ensures Apply(Run(s, lays), e) == Run(Apply(s, e), lays)
    decreases |lays|
  {
    if lays != [] {
      SwapPast(Apply(s, lays[0]), lays[1..], e, keys);
      SwapOne(s, lays[0], e);
    }
  }

  lemma {:induction false} SwapAll(s: Store, lays: seq<Edit>, es: seq<Edit>, start: Ts, keys: set<Key>)
    requires Lays(lays, keys) && Foreign(es, start, keys)
    ensures Run(Run(s, lays), es) == Run(Run(s, es), lays)
    decreases |es|
  {
    if es != [] {
      SwapPast(s, lays, es[0], keys);
      SwapAll(Apply(s, es[0]), lays, es[1..], start, keys);
    }
  }

  // ---------- Batched prewrite ----------

  function Keys(ms: seq<Mutation>): set<Key> {
    set m | m in ms :: m.key
  }

  /** The last mutation of the list on the key. */
  function LastOn(ms: seq<Mutation>, key: Key): Option<Mutation> {
    if ms == [] then None
    else if ms[|ms| - 1].key == key then Some(ms[|ms| - 1])
    else LastOn(ms[..|ms| - 1], key)
  }

  /** What laying a list of mutations leaves on a key. */
  ghost predicate LaidOn(b: Store, p: Store, ms: seq<Mutation>, key: Key, start: Ts, primary: Key, ttl: u64) {
    match LastOn(ms, key)
    case None => (key in p.locks <==> key in b.locks) && (key in b.locks ==> p.locks[key] == b.locks[key])
    case Some(m) =>
      && key in p.locks && p.locks[key] == Lock(primary, start, ttl, m.Op())
      && (m.PutValue? ==> Version(key, start) in p.data && p.data[Version(key, start)] == m.value)
  }

  lemma {:induction false} LaidOnKey(b: Store, ms: seq<Mutation>, key: Key, start: Ts, primary: Key, ttl: u64)
    ensures var p := Run(b, Staged(ms, start, primary, ttl));
            p.writes == b.writes && LaidOn(b, p, ms, key, start, primary, ttl)
    ensures LastOn(ms, key) == None <==> key !in Keys(ms)
    decreases |ms|
  {
    if ms != [] {
      var init, last := ms[..|ms| - 1], ms[|ms| - 1];
      LaidOnKey(b, init, key, start, primary, ttl);
      StagedSnoc(init, last, start, primary, ttl);
      assert ms == init + [last];
      RunConcat(b, Staged(init, start, primary, ttl), [Lay(last, start, primary, ttl)]);
      RunOne(Run(b, Staged(init, start, primary, ttl)), Lay(last, start, primary, ttl));
      assert Keys(ms) == Keys(init) + {last.key};
    }
  }

  lemma LaidStore(b: Store, ms: seq<Mutation>, start: Ts, primary: Key, ttl: u64)
    ensures var p := Run(b, Staged(ms, start, primary, ttl));
            && p.writes == b.writes
            && (forall k | k in Keys(ms) :: p.LockedBy(k, start))
            && (forall k | k !in Keys(ms) :: k in p.locks <==> k in b.locks)
            && (forall k | k !in Keys(ms) && k in b.locks :: p.locks[k] == b.locks[k])
  {
    LaidOnKey(b, ms, [], start, primary, ttl);
    forall k ensures LaidOn(b, Run(b, Staged(ms, start, primary, ttl)), ms, k, start, primary, ttl)
             ensures LastOn(ms, k) == None <==> k !in Keys(ms)
    {
      LaidOnKey(b, ms, k, start, primary, ttl);
    }
  }

  lemma StagedSnoc(ms: seq<Mutation>, m: Mutation, start: Ts, primary: Key, ttl: u64)
    ensures Staged(ms + [m], start, primary, ttl) == Staged(ms, start, primary, ttl) + [Lay(m, start, primary, ttl)]
  {
  }

  /** Locks already laid do not change how the next lock is resolved. */
  lemma ClearSees(b: Store, p: Store, held: set<Key>, key: Key, start: Ts, now: Readings)
    requires p.writes == b.writes && Held(b, held, start)
    requires forall k | k in held :: p.LockedBy(k, start)
    requires forall k | k !in held :: (k in p.locks <==> k in b.locks) && (k in b.locks ==> p.locks[k] == b.locks[k])
    ensures Clear(p, key, start, now) == Clear(b, key, start, now)
    ensures Conflict(p, key, start) == Conflict(b, key, start)
  {
    if key !in held && key in b.locks && b.locks[key].start != start {
      StatusSees(b, p, held, b.locks[key].primary, b.locks[key].start, start, now.primary);
    }
  }

  lemma StatusSees(b: Store, p: Store, held: set<Key>, primary: Key, t: Ts, start: Ts, now: u64)
    requires p.writes == b.writes && Held(b, held, start) && t != start
    requires forall k | k in held :: p.LockedBy(k, start)
    requires forall k | k !in held :: (k in p.locks <==> k in b.locks) && (k in b.locks ==> p.locks[k] == b.locks[k])
    ensures CheckStatus(p, primary, t, now) == CheckStatus(b, primary, t, now)
  {
    assert p.LockedBy(primary, t) <==> b.LockedBy(primary, t);
  }

  /** One mutation: the locks laid so far move past the resolution of the next lock. */
  lemma LayNext(b: Store, done: seq<Mutation>, m: Mutation, start: Ts, primary: Key, ttl: u64, now: Readings)
    requires Held(b, Keys(done), start) && Clear(b, m.key, start, now).result
    requires var p := Run(b, Staged(done, start, primary, ttl));
             Clear(p, m.key, start, now) == Clear(b, m.key, start, now) && Conflict(p, m.key, start) == None
    ensures var p := Run(b, Staged(done, start, primary, ttl));
            var b' := Run(b, Clear(b, m.key, start, now).edits);
            var o := PrewriteKey(p, m, start, primary, ttl, now);
            && Held(b', Keys(done + [m]), start) && o.result.Accepted?
            && Run(p, o.edits) == Run(b', Staged(done + [m], start, primary, ttl))
  {
    hide Lookup, Resolve, Clear, Conflict;
    var lays, lay := Staged(done, start, primary, ttl), Lay(m, start, primary, ttl);
    var p, es := Run(b, lays), Clear(b, m.key, start, now).edits;
    var b' := Run(b, es);
    ClearIsForeign(b, m.key, start, now, Keys(done));
    ForeignKeepsHeld(b, es, start, Keys(done), Keys(done));
    ClearUnlocks(b, m.key, start, now);
    ClearUnlocks(p, m.key, start, now);
    assert Keys(done + [m]) == Keys(done) + {m.key};
    SwapAll(b, lays, es, start, Keys(done));
    StagedSnoc(done, m, start, primary, ttl);
    RunConcat(b', lays, [lay]);
    RunConcat(p, es, [lay]);
  }

  lemma {:induction false} PrewriteSimulates(b: Store, done: seq<Mutation>, ms: seq<Mutation>,
                                             start: Ts, primary: Key, ttl: u64, clock: Clock)
    requires Held(b, Keys(done), start)
    ensures var p := Run(b, Staged(done, start, primary, ttl));
            var one, all := Prewrite(p, ms, start, primary, ttl, clock), ClearAll(b, ms, start, clock);
            && one.result == all.result
            && (one.result.Accepted? ==>
                  Run(p, one.edits) == Run(Run(b, all.edits), Staged(done + ms, start, primary, ttl)))
    decreases |ms|
  {
    hide Lookup, Resolve, Clear, Conflict, PrewriteKey, Run, Keys;
    var p := Run(b, Staged(done, start, primary, ttl));
    if ms == [] {
      RunNothing(p);
      RunNothing(b);
      assert done + ms == done;
    } else {
      var m := ms[0];
      LaidStore(b, done, start, primary, ttl);
      ClearSees(b, p, Keys(done), m.key, start, clock(m.key));
      if Conflict(b, m.key, start) == None && Clear(b, m.key, start, clock(m.key)).result {
        LayNext(b, done, m, start, primary, ttl, clock(m.key));
        var b' := Run(b, Clear(b, m.key, start, clock(m.key)).edits);
        PrewriteSimulates(b', done + [m], ms[1..], start, primary, ttl, clock);
        PrewriteUnfolds(p, ms, start, primary, ttl, clock);
        ClearAllUnfolds(b, ms, start, clock);
        assert (done + [m]) + ms[1..] == done + ms;
      } else {
        BothRefuse(b, p, ms, start, primary, ttl, clock);
      }
    }
  }

  lemma BothRefuse(b: Store, p: Store, ms: seq<Mutation>, start: Ts, primary: Key, ttl: u64, clock: Clock)
    requires ms != [] && Conflict(p, ms[0].key, start) == Conflict(b, ms[0].key, start)
    requires Clear(p, ms[0].key, start, clock(ms[0].key)) == Clear(b, ms[0].key, start, clock(ms[0].key))
    requires Conflict(b, ms[0].key, start).Some? || !Clear(b, ms[0].key, start, clock(ms[0].key)).result
    ensures var one, all := Prewrite(p, ms, start, primary, ttl, clock), ClearAll(b, ms, start, clock);
            one.result == all.result && one.result.Refused?
  {
  }

  /** Under the same clock, a batched prewrite answers exactly as the one-by-one prewrite does,
      and a success leaves the same store. */
  lemma BatchPrewriteRefines(s: Store, ms: seq<Mutation>, start: Ts, primary: Key, ttl: u64, clock: Clock)
    ensures var one := Prewrite(s, ms, start, primary, ttl, clock);
            var all := BatchPrewrite(s, ms, start, primary, ttl, clock);
            && one.result == all.result
            && (all.result.Accepted? ==> Run(s, one.edits) == Run(s, all.edits))
  {
    hide Lookup, PrewriteKey, Clear, Conflict;
    PrewriteSimulates(s, [], ms, start, primary, ttl, clock);
    assert [] + ms == ms;
    assert Run(s, Staged([], start, primary, ttl)) == s;
    var all := ClearAll(s, ms, start, clock);
    RunConcat(s, all.edits, Staged(ms, start, primary, ttl));
  }

  lemma {:induction false} ClearAllSpares(s: Store, ms: seq<Mutation>, start: Ts, clock: Clock, own: set<Key>)
    requires forall k :: k in own <==> s.LockedBy(k, start)
    ensures SameOwn(s, Run(s, ClearAll(s, ms, start, clock).edits), start)
    decreases |ms|
  {
    hide Lookup, Clear, Conflict;
    if ms != [] && Conflict(s, ms[0].key, start) == None {
      var o := Clear(s, ms[0].key, start, clock(ms[0].key));
      ClearIsForeign(s, ms[0].key, start, clock(ms[0].key), own);
      ForeignKeepsHeld(s, o.edits, start, own, own);
      if o.result {
        ClearAllSpares(Run(s, o.edits), ms[1..], start, clock, own);
        ClearAllUnfolds(s, ms, start, clock);
      }
    }
  }

  /** The locks and values of the transaction are the same in both stores. */
  ghost predicate SameOwn(a: Store, b: Store, start: Ts) {
    && a.data == b.data
    && (forall k :: a.LockedBy(k, start) <==> b.LockedBy(k, start))
    && (forall k | a.LockedBy(k, start) :: a.locks[k] == b.locks[k])
  }

  /** A refused batched prewrite leaves no trace of its own transaction. */
  lemma RefusedBatchLeavesNothing(s: Store, ms: seq<Mutation>, start: Ts, primary: Key, ttl: u64, clock: Clock)
    requires BatchPrewrite(s, ms, start, primary, ttl, clock).result.Refused?
    ensures SameOwn(s, Run(s, BatchPrewrite(s, ms, start, primary, ttl, clock).edits), start)
  {
    ClearAllSpares(s, ms, start, clock, set k | k in s.locks && s.locks[k].start == start);
  }

  // ---------- The order of the list ----------

  /** The first mutation of the list on the key. */
  function FirstOn(ms: seq<Mutation>, key: Key): Mutation
    requires key in Keys(ms)
  {
    if ms[0].key == key then ms[0] else FirstOn(ms[1..], key)
  }

  lemma LaysCommute(s: Store, a: Edit, b: Edit)
    requires a.Lay? && b.Lay? && a.mutation.key != b.mutation.key
    ensures Apply(Apply(s, a), b) == Apply(Apply(s, b), a)
  {
    var ab, ba := Apply(Apply(s, a), b), Apply(Apply(s, b), a);
    assert ab.locks == ba.locks && ab.data == ba.data;
  }

  lemma LayTwice(s: Store, e: Edit)
    requires e.Lay?
    ensures Apply(Apply(s, e), e) == Apply(s, e)
  {
    assert Apply(Apply(s, e), e).locks == Apply(s, e).locks;
  }

  lemma StagedUnfolds(s: Store, ms: seq<Mutation>, start: Ts, primary: Key, ttl: u64)
    requires ms != []
    ensures Run(s, Staged(ms, start, primary, ttl))
            == Run(Apply(s, Lay(ms[0], start, primary, ttl)), Staged(ms[1..], start, primary, ttl))
  {
    assert Staged(ms, start, primary, ttl)[1..] == Staged(ms[1..], start, primary, ttl);
  }

  /** Laying the first mutation on a key ahead of the others changes nothing in the end. */
  lemma {:induction false} LayAbsorbed(s: Store, ms: seq<Mutation>, start: Ts, primary: Key, ttl: u64, k: Key)
    requires k in Keys(ms)
    ensures Run(s, Staged([FirstOn(ms, k)] + ms, start, primary, ttl)) == Run(s, Staged(ms, start, primary, ttl))
    decreases |ms|
  {
    hide Run, Apply, Staged;
    var a, b := Lay(FirstOn(ms, k), start, primary, ttl), Lay(ms[0], start, primary, ttl);
    assert ([FirstOn(ms, k)] + ms)[1..] == ms;
    StagedUnfolds(s, [FirstOn(ms, k)] + ms, start, primary, ttl);
    StagedUnfolds(Apply(s, a), ms, start, primary, ttl);
    StagedUnfolds(s, ms, start, primary, ttl);
    if ms[0].key == k {
      LayTwice(s, a);
    } else {
      FirstOnKey(ms, k);
      LaysCommute(s, a, b);
      assert ([FirstOn(ms, k)] + ms[1..])[1..] == ms[1..];
      StagedUnfolds(Apply(s, b), [FirstOn(ms, k)] + ms[1..], start, primary, ttl);
      LayAbsorbed(Apply(s, b), ms[1..], start, primary, ttl, k);
    }
  }

  lemma {:induction false} FirstOnKey(ms: seq<Mutation>, k: Key)
    requires k in Keys(ms)
    ensures FirstOn(ms, k).key == k && FirstOn(ms, k) in ms
    decreases |ms|
  {
    if ms[0].key != k { FirstOnKey(ms[1..], k); }
  }

  // ---------- Batched commit ----------

  predicate Sealed(s: Store, c: Store, k: Key, start: Ts, commitTs: Ts) {
    && s.LockedBy(k, start) && k !in c.locks && Version(k, commitTs) in c.writes
    && c.writes[Version(k, commitTs)] == WriteRecord(start, s.locks[k].op)
  }

  /** c is s after some of the transaction's keys have been committed. */
  ghost predicate PartlySealed(s: Store, c: Store, start: Ts, commitTs: Ts) {
    forall k :: Sealed(s, c, k, start, commitTs)
                || ((k in c.locks <==> k in s.locks) && (k in s.locks ==> c.locks[k] == s.locks[k]))
  }

  lemma {:induction false} CommitsAgree(s: Store, c: Store, keys: seq<Key>, start: Ts, commitTs: Ts)
    requires PartlySealed(s, c, start, commitTs)
    ensures Run(c, CommitHeld(c, keys, start, commitTs)) == Run(c, BatchCommit(s, keys, start, commitTs))
    decreases |keys|
  {
    if keys != [] {
      var k, rest := keys[0], BatchCommit(s, keys[1..], start, commitTs);
      if s.LockedBy(k, start) {
        var e := Seal(k, start, commitTs, s.locks[k].op);
        var c' := Apply(c, e);
        assert BatchCommit(s, keys, start, commitTs) == [e] + rest;
        if Sealed(s, c, k, start, commitTs) {
          assert c'.locks == c.locks && c'.writes == c.writes;
        } else {
          assert CommitHeld(c, keys, start, commitTs) == [e] + CommitHeld(c', keys[1..], start, commitTs);
          assert PartlySealed(s, c', start, commitTs);
        }
        CommitsAgree(s, c', keys[1..], start, commitTs);
      } else {
        assert BatchCommit(s, keys, start, commitTs) == rest;
        CommitsAgree(s, c, keys[1..], start, commitTs);
      }
    }
  }

  /** A batched commit leaves the store of the one-by-one commit exactly when the first key is
      locked by the transaction or no listed key is: otherwise the one-by-one commit is refused
      and the batch commits the rest. */
  lemma BatchCommitRefines(s: Store, keys: seq<Key>, start: Ts, commitTs: Ts)
    ensures Run(s, Commit(s, keys, start, commitTs).edits) == Run(s, BatchCommit(s, keys, start, commitTs))
            <==> (keys == [] || s.LockedBy(keys[0], start) || forall k | k in keys :: !s.LockedBy(k, start))
  {
    CommitsAgree(s, s, keys, start, commitTs);
    if keys != [] && !s.LockedBy(keys[0], start) {
      if k :| k in keys && s.LockedBy(k, start) {
        BatchSeals(s, s, keys, start, commitTs, k);
      } else {
        NothingHeld(s, keys, start, commitTs);
      }
    }
  }

  lemma {:induction false} NothingHeld(s: Store, keys: seq<Key>, start: Ts, commitTs: Ts)
    requires forall k | k in keys :: !s.LockedBy(k, start)
    ensures BatchCommit(s, keys, start, commitTs) == []
  {
    if keys != [] {
      NothingHeld(s, keys[1..], start, commitTs);
    }
  }

  /** Every listed key the transaction holds is unlocked by the batch. */
  lemma {:induction false} BatchSeals(s: Store, c: Store, keys: seq<Key>, start: Ts, commitTs: Ts, k: Key)
    requires s.LockedBy(k, start) && (k in keys || k !in c.locks)
    ensures k !in Run(c, BatchCommit(s, keys, start, commitTs)).locks
    decreases |keys|
  {
    if keys != [] {
      var es := BatchCommit(s, keys, start, commitTs);
      var rest := BatchCommit(s, keys[1..], start, commitTs);
      if s.LockedBy(keys[0], start) {
        assert es == [es[0]] + rest;
        BatchSeals(s, Apply(c, es[0]), keys[1..], start, commitTs, k);
      } else {
        assert es == rest;
        BatchSeals(s, c, keys[1..], start, commitTs, k);
      }
    }
  }

  /** Committing a listed key ahead of the batch changes nothing. */
  lemma {:induction false} SealAbsorbed(s: Store, c: Store, keys: seq<Key>, start: Ts, commitTs: Ts, k: Key)
    requires k in keys && s.LockedBy(k, start)
    ensures Run(Apply(c, Seal(k, start, commitTs, s.locks[k].op)), BatchCommit(s, keys, start, commitTs))
            == Run(c, BatchCommit(s, keys, start, commitTs))
    decreases |keys|
  {
    var e, rest := Seal(k, start, commitTs, s.locks[k].op), BatchCommit(s, keys[1..], start, commitTs);
    if s.LockedBy(keys[0], start) {
      var first := Seal(keys[0], start, commitTs, s.locks[keys[0]].op);
      assert BatchCommit(s, keys, start, commitTs) == [first] + rest;
      SealsCommute(c, e, first);
      if keys[0] != k { SealAbsorbed(s, Apply(c, first), keys[1..], start, commitTs, k); }
    } else {
      assert BatchCommit(s, keys, start, commitTs) == rest;
      SealAbsorbed(s, c, keys[1..], start, commitTs, k);
    }
  }

  lemma SealsCommute(s: Store, a: Edit, b: Edit)
    requires a.Seal? && b.Seal? && (a.key != b.key || a == b)
    ensures Apply(Apply(s, a), b) == Apply(Apply(s, b), a)
    ensures a == b ==> Apply(Apply(s, a), b) == Apply(s, b)
  {
    var x, y := Apply(Apply(s, a), b), Apply(Apply(s, b), a);
    assert x.locks == y.locks && x.writes == y.writes;
    if a == b { assert x.locks == Apply(s, b).locks && x.writes == Apply(s, b).writes; }
  }

  lemma RepeatAbsorbed(s: Store, keys: seq<Key>, start: Ts, commitTs: Ts, k: Key)
    requires k in keys
    ensures Run(s, BatchCommit(s, [k] + keys, start, commitTs)) == Run(s, BatchCommit(s, keys, start, commitTs))
  {
    assert ([k] + keys)[1..] == keys;
    if s.LockedBy(k, start) {
      var e := Seal(k, start, commitTs, s.locks[k].op);
      assert BatchCommit(s, [k] + keys, start, commitTs) == [e] + BatchCommit(s, keys, start, commitTs);
      SealAbsorbed(s, s, keys, start, commitTs, k);
    } else {
      var rest := BatchCommit(s, keys, start, commitTs);
      assert BatchCommit(s, [k] + keys, start, commitTs) == [] + rest == rest;
    }
  }

  // ---------- Rollback ----------

  /** A rollback of one key does not change what a rollback of another does. */
  lemma RollbackElsewhere(s: Store, a: Key, b: Key, start: Ts)
    requires a != b
    ensures RollbackKey(Apply(s, RollbackKey(s, a, start)), b, start) == RollbackKey(s, b, start)
  {
  }

  lemma RollbacksCommute(s: Store, a: Key, b: Key, start: Ts)
    requires a != b
    ensures var sa, sb := Apply(s, RollbackKey(s, a, start)), Apply(s, RollbackKey(s, b, start));
            Apply(sa, RollbackKey(sa, b, start)) == Apply(sb, RollbackKey(sb, a, start))
  {
    var ea, eb := RollbackKey(s, a, start), RollbackKey(s, b, start);
    assert (ea == Abort(a, start) || ea == Mark(a, start)) && (eb == Abort(b, start) || eb == Mark(b, start));
    RollbackElsewhere(s, a, b, start);
    RollbackElsewhere(s, b, a, start);
    hide RollbackKey;
    MarksCommute(s, a, b, start, ea, eb);
  }

  lemma MarksCommute(s: Store, a: Key, b: Key, start: Ts, ea: Edit, eb: Edit)
    requires a != b
    requires (ea == Abort(a, start) || ea == Mark(a, start)) && (eb == Abort(b, start) || eb == Mark(b, start))
    ensures Apply(Apply(s, ea), eb) == Apply(Apply(s, eb), ea)
  {
    WritesCommute(s.writes, Version(a, start), Version(b, start), WriteRecord(start, Rollback));
    if ea.Abort? && eb.Abort? { assert (s.locks - {a}) - {b} == (s.locks - {b}) - {a}; }
  }

  lemma WritesCommute(writes: Writes, a: Version, b: Version, r: WriteRecord)
    ensures writes[a := r][b := r] == writes[b := r][a := r]
  {
  }

  lemma RollbackTwice(s: Store, a: Key, start: Ts)
    ensures var sa := Apply(s, RollbackKey(s, a, start)); Apply(sa, RollbackKey(sa, a, start)) == sa
  {
    var sa := Apply(s, RollbackKey(s, a, start));
    assert Apply(sa, RollbackKey(sa, a, start)).writes == sa.writes;
  }

  /** Rolling a listed key back ahead of the others changes nothing in the end. */
  lemma {:induction false} RollbackAbsorbed(s: Store, keys: seq<Key>, start: Ts, k: Key)
    requires k in keys
    ensures Run(s, Rollbacks(s, [k] + keys, start)) == Run(s, Rollbacks(s, keys, start))
    decreases |keys|
  {
    hide Run, Apply, Rollbacks, RollbackKey;
    var s1, s2 := Apply(s, RollbackKey(s, k, start)), Apply(s, RollbackKey(s, keys[0], start));
    assert ([k] + keys)[1..] == keys;
    RollbacksUnfold(s, [k] + keys, start);
    RollbacksUnfold(s1, keys, start);
    RollbacksUnfold(s, keys, start);
    if keys[0] == k {
      RollbackTwice(s, k, start);
    } else {
      RollbacksCommute(s, k, keys[0], start);
      RollbackAbsorbed(s2, keys[1..], start, k);
      RollbacksUnfold(s2, [k] + keys[1..], start);
      assert ([k] + keys[1..])[1..] == keys[1..];
    }
  }
}
