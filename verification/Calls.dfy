/**
 Whole coordinator calls: each one, made by clients that keep a rule, commits only legal batches.
 */
module Calls {
  import opened Bytes
  import opened Wrappers
  import opened KeyEncoder
  import opened Records
  import opened Store
  import opened Txn
  import opened Protocol
  import opened Runs
  import opened Resolver
  import opened Batch

  datatype Call =
    | PrewriteCall(ms: seq<Mutation>, start: Ts, primary: Key, ttl: u64, clock: Clock)
    | BatchPrewriteCall(ms: seq<Mutation>, start: Ts, primary: Key, ttl: u64, clock: Clock)
    | CommitCall(keys: seq<Key>, start: Ts, commitTs: Ts)
    | BatchCommitCall(keys: seq<Key>, start: Ts, commitTs: Ts)
    | RollbackCall(keys: seq<Key>, start: Ts)
    | HeartbeatCall(key: Key, start: Ts, ttl: u64)
    | StatusCall(key: Key, start: Ts, at: u64)
    | ResolveCall(key: Key, now: Readings)      // of the lock stored on the key
    | GetCall(key: Key, readTs: Ts, now: Readings)
    | Interrupted(call: Call, batches: nat)     // stopped, as by a crash, after so many batches

  /** The edits a call commits. */
  function Edits(s: Store, c: Call): seq<Edit> {
    match c
    case PrewriteCall(ms, t, p, ttl, clock) => Prewrite(s, ms, t, p, ttl, clock).edits
    case BatchPrewriteCall(ms, t, p, ttl, clock) => BatchPrewrite(s, ms, t, p, ttl, clock).edits
    case CommitCall(keys, t, ts) => Commit(s, keys, t, ts).edits
    case BatchCommitCall(keys, t, ts) => BatchCommit(s, keys, t, ts)
    case RollbackCall(keys, t) => Rollbacks(s, keys, t)
    case HeartbeatCall(key, t, ttl) => Heartbeat(s, key, t, ttl).edits
    case StatusCall(key, t, now) => CheckStatus(s, key, t, now).edits
    case ResolveCall(key, now) => if key in s.locks then Resolve(s, key, s.locks[key], now).edits else []
    case GetCall(key, readTs, now) => Get(s, key, readTs, now).edits
    case Interrupted(call, n) => Cut(s, call, Edits(s, call), n)
  }

  /** What is committed when a call stops after n batches.  The staged batch of a batched call is one. */
  function Cut(s: Store, c: Call, es: seq<Edit>, n: nat): seq<Edit> {
    match c
    case BatchPrewriteCall(ms, t, _, _, clock) =>
      var cleared := ClearAll(s, ms, t, clock).edits;
      if n <= |cleared| then cleared[..n] else es
    case BatchCommitCall(_, _, _) => if n == 0 then [] else es
    case Interrupted(_, _) => es
    case _ => if n <= |es| then es[..n] else es
  }

  /** The call names keys and transactions of the world, and each transaction its own commit timestamp. */
  ghost predicate Belongs(w: World, c: Call) {
    match c
    case PrewriteCall(ms, t, p, _, _) => t in w.txns && p in w.keys && Keys(ms) <= w.keys
    case BatchPrewriteCall(ms, t, p, _, _) => t in w.txns && p in w.keys && Keys(ms) <= w.keys
    case CommitCall(_, t, ts) => t in w.txns && ts == w.txns[t].commitTs
    case BatchCommitCall(_, t, ts) => t in w.txns && ts == w.txns[t].commitTs
    case RollbackCall(keys, t) => t in w.txns && forall k | k in keys :: k in w.keys
    case HeartbeatCall(_, _, _) => true
    case StatusCall(key, _, _) => key in w.keys
    case ResolveCall(key, _) => key in w.keys
    case GetCall(key, _, _) => key in w.keys
    case Interrupted(call, _) => Belongs(w, call)
  }

  // ---------- What each rule asks of a client ----------

  /** The resolver, judging the lock on `key` by `ttl`, does not roll it back while its primary lives. */
  predicate Covered(s: Store, key: Key, ttl: u64, now: Readings) {
    key in s.locks ==>
      var l := s.locks[key];
      key == l.primary || !s.LockedBy(l.primary, l.start)
      || Expired(now.primary, l.start, s.locks[l.primary].ttl) || !Expired(now.own, l.start, ttl)
  }

  /** The lock in the way belongs to a transaction whose primary committed at or above `t`. */
  predicate Overtaken(w: World, s: Store, key: Key, t: Ts) {
    key in s.locks && s.locks[key].start != t
    && HasCommit(w, s, s.locks[key].primary, s.locks[key].start)
    && w.txns[s.locks[key].start].commitTs >= t
  }

  /** Clearing a foreign lock off the key is permitted. */
  predicate ClearPermitted(s: Store, key: Key, t: Ts, now: Readings, rule: Rule) {
    rule.PrimaryFirst? && key in s.locks && s.locks[key].start != t && s.locks[key].start == rule.txn ==>
      Covered(s, key, s.locks[key].ttl, now)
  }

  /** Laying a lock on the key, after clearing a foreign one, is permitted. */
  ghost predicate LayPermitted(w: World, s: Store, key: Key, t: Ts, p: Key, now: Readings, rule: Rule)
    requires t in w.txns
  {
    && ClearPermitted(s, key, t, now, rule)
    && match rule
       case PrimaryFirst(u) => t == u ==> p == w.txns[t].primary && (key == p || Touched(w, s, p, t))
       case FreshLocks => !Overtaken(w, s, key, t)
       case SnapshotAt(readTs) => w.txns[t].commitTs <= readTs ==> NoCommit(s, t)
       case _ => true
  }

  /** Each mutation that is accepted is permitted in the store it meets, as far as the first n edits go. */
  ghost predicate PrewritePermitted(w: World, s: Store, ms: seq<Mutation>, t: Ts, p: Key, ttl: u64, clock: Clock,
                                    n: nat, rule: Rule)
    requires t in w.txns
    decreases |ms|
  {
    ms == [] || n == 0 ||
    var o := PrewriteKey(s, ms[0], t, p, ttl, clock(ms[0].key));
    o.result.Refused? ||
    (&& LayPermitted(w, s, ms[0].key, t, p, clock(ms[0].key), rule)
     && (n > |o.edits| ==> PrewritePermitted(w, Run(s, o.edits), ms[1..], t, p, ttl, clock, n - |o.edits|, rule)))
  }

  /** So is each lock that a batched prewrite clears. */
  ghost predicate ClearAllPermitted(s: Store, ms: seq<Mutation>, t: Ts, clock: Clock, n: nat, rule: Rule)
    decreases |ms|
  {
    ms == [] || n == 0 || Conflict(s, ms[0].key, t).Some? ||
    var o := Clear(s, ms[0].key, t, clock(ms[0].key));
    !o.result ||
    (&& ClearPermitted(s, ms[0].key, t, clock(ms[0].key), rule)
     && (n > |o.edits| ==> ClearAllPermitted(Run(s, o.edits), ms[1..], t, clock, n - |o.edits|, rule)))
  }

  /** A prewrite that is accepted as a whole may list its own primary in any place. */
  ghost predicate AcceptedPermitted(w: World, s: Store, ms: seq<Mutation>, t: Ts, p: Key, ttl: u64, clock: Clock,
                                    rule: Rule)
    requires t in w.txns
  {
    if rule == PrimaryFirst(t) then p == w.txns[t].primary && (p in Keys(ms) || Touched(w, s, p, t))
    else PrewritePermitted(w, s, ms, t, p, ttl, clock, |Prewrite(s, ms, t, p, ttl, clock).edits|, rule)
  }

  ghost predicate PlainPermitted(w: World, s: Store, c: Call, rule: Rule)
    requires c.PrewriteCall? && c.start in w.txns
  {
    var one := Prewrite(s, c.ms, c.start, c.primary, c.ttl, c.clock);
    if one.result.Accepted? then AcceptedPermitted(w, s, c.ms, c.start, c.primary, c.ttl, c.clock, rule)
    else PrewritePermitted(w, s, c.ms, c.start, c.primary, c.ttl, c.clock, |one.edits|, rule)
  }

  /** A refused batched prewrite only clears. */
  ghost predicate BatchPermitted(w: World, s: Store, c: Call, rule: Rule)
    requires c.BatchPrewriteCall? && c.start in w.txns
  {
    var all := BatchPrewrite(s, c.ms, c.start, c.primary, c.ttl, c.clock);
    if all.result.Accepted? then
      AcceptedPermitted(w, s, c.ms, c.start, c.primary, c.ttl, c.clock, rule)
    else ClearAllPermitted(s, c.ms, c.start, c.clock, |all.edits|, rule)
  }

  /** A commit of the transaction's keys as a whole. */
  ghost predicate CommitPermitted(w: World, s: Store, keys: seq<Key>, t: Ts, rule: Rule)
    requires t in w.txns
  {
    match rule
    case PrimaryFirst(u) =>
      t == u ==>
        var first := w.txns[t].primary;
        HasCommit(w, s, first, t) || (first in keys && s.LockedBy(first, t))
    case SnapshotAt(readTs) => w.txns[t].commitTs > readTs || !NoCommit(s, t)
    case _ => true
  }

  /** A rollback of the transaction's keys as a whole. */
  predicate RollbackPermitted(w: World, s: Store, keys: seq<Key>, t: Ts, rule: Rule)
    requires t in w.txns
  {
    rule == PrimaryFirst(t) ==>
      var first := w.txns[t].primary;
      HasRollback(s, first, t) || (first in keys && !HasCommit(w, s, first, t))
  }

  predicate StatusPermitted(w: World, s: Store, key: Key, t: Ts, rule: Rule) {
    rule == PrimaryFirst(t) && t in w.txns ==> key == w.txns[t].primary || HasRollback(s, w.txns[t].primary, t)
  }

  /** A read's resolving of the lock on the key, as if it were a Put, is permitted. */
  predicate AssumePermitted(w: World, s: Store, key: Key, now: Readings, rule: Rule)
    requires key in s.locks
  {
    var l := s.locks[key];
    match rule
    case PrimaryFirst(u) => l.start == u ==> Covered(s, key, READ_TTL, now)
    case StoredOps => l.op == Put || !HasCommit(w, s, l.primary, l.start) || Version(key, l.start) in s.data
    case TrueOps => l.op == Put || !HasCommit(w, s, l.primary, l.start)
    case _ => true
  }

  /** What a rule asks of a call that has an effect. */
  ghost predicate Disciplined(w: World, s: Store, c: Call, rule: Rule)
    requires Belongs(w, c)
    decreases c, 0
  {
    match c
    case PrewriteCall(_, _, _, _, _) => PlainPermitted(w, s, c, rule)
    case BatchPrewriteCall(_, _, _, _, _) => BatchPermitted(w, s, c, rule)
    case CommitCall(keys, t, _) => CommitPermitted(w, s, keys, t, rule)
    case BatchCommitCall(keys, t, _) => CommitPermitted(w, s, keys, t, rule)
    case RollbackCall(keys, t) => RollbackPermitted(w, s, keys, t, rule)
    case HeartbeatCall(_, _, _) => true
    case StatusCall(key, t, _) => StatusPermitted(w, s, key, t, rule)
    case ResolveCall(key, now) =>
      key in s.locks && rule == PrimaryFirst(s.locks[key].start) ==> Covered(s, key, s.locks[key].ttl, now)
    case GetCall(key, readTs, now) =>
      key in s.locks && s.locks[key].start <= readTs ==> AssumePermitted(w, s, key, now, rule)
    case Interrupted(call, n) =>
      if Edits(s, c) == Edits(s, call) then Disciplined(w, s, call, rule) else CutDisciplined(w, s, call, n, rule)
  }

  /** What it asks of a call cut off after n batches: the primary must come first in the list. */
  ghost predicate CutDisciplined(w: World, s: Store, c: Call, n: nat, rule: Rule)
    requires Belongs(w, c)
    decreases c, 1
  {
    match c
    case PrewriteCall(ms, t, p, ttl, clock) => PrewritePermitted(w, s, ms, t, p, ttl, clock, n, rule)
    case BatchPrewriteCall(ms, t, _, _, clock) => ClearAllPermitted(s, ms, t, clock, n, rule)
    case CommitCall(keys, t, _) =>
      && CommitPermitted(w, s, keys, t, rule)
      && (rule == PrimaryFirst(t) && keys != [] ==>
            HasCommit(w, s, w.txns[t].primary, t) || keys[0] == w.txns[t].primary)
    case RollbackCall(keys, t) =>
      rule == PrimaryFirst(t) && keys != [] ==>
        || HasRollback(s, w.txns[t].primary, t)
        || (keys[0] == w.txns[t].primary && !HasCommit(w, s, keys[0], t))
    case _ => Disciplined(w, s, c, rule)
  }

  /** A call that commits nothing is always permitted. */
  ghost predicate Permitted(w: World, s: Store, c: Call, rule: Rule) {
    Edits(s, c) == [] || (Belongs(w, c) && Disciplined(w, s, c, rule))
  }

  /** The invariant that goes with a rule. */
  ghost predicate RuleInvariant(w: World, s: Store, rule: Rule) {
    match rule
    case PrimaryFirst(t) => PrimaryDecides(w, s, t)
    case FreshLocks => FirstCommitterWon(s)
    case StoredOps => ValuesPresent(s)
    case _ => true
  }

  lemma InvariantRun(w: World, s: Store, es: seq<Edit>, rule: Rule)
    requires Ready(w, s) && RuleInvariant(w, s, rule) && Legal(w, s, es, rule)
    ensures Ready(w, Run(s, es)) && RuleInvariant(w, Run(s, es), rule)
  {
    SoundRun(w, s, es, rule);
    match rule
    case PrimaryFirst(t) => PrimaryDecidesRun(w, s, es, t);
    case FreshLocks => FirstCommitterRun(w, s, es);
    case StoredOps => ValuesRun(w, s, es);
    case _ =>
  }

  // ---------- Resolving a stored lock ----------

  /** The lock handed to the resolver names the stored primary and start. */
  predicate Names(s: Store, key: Key, lock: Lock) {
    key in s.locks && s.locks[key].primary == lock.primary && s.locks[key].start == lock.start && lock.op != Rollback
  }

  lemma LegalOne(w: World, s: Store, e: Edit, rule: Rule)
    requires Enabled(w, s, e) && Obeys(w, s, e, rule)
    ensures Legal(w, s, [e], rule) && Run(s, [e]) == Apply(s, e)
  {
    assert [e][1..] == [];
  }

  lemma LegalTwo(w: World, s: Store, a: Edit, b: Edit, rule: Rule)
    requires Enabled(w, s, a) && Obeys(w, s, a, rule)
    requires Enabled(w, Apply(s, a), b) && Obeys(w, Apply(s, a), b, rule)
    ensures Legal(w, s, [a, b], rule)
  {
    assert [a, b][1..] == [b];
    LegalOne(w, Apply(s, a), b, rule);
  }

  lemma DecideLegal(w: World, s: Store, key: Key, lock: Lock, now: Readings, rule: Rule)
    requires Ready(w, s) && RuleInvariant(w, s, rule) && Names(s, key, lock)
    requires rule == PrimaryFirst(lock.start) ==> Covered(s, key, lock.ttl, now)
    requires rule == StoredOps && lock.op == Put ==>
               !HasCommit(w, s, lock.primary, lock.start) || Version(key, lock.start) in s.data
    requires rule == TrueOps ==> lock.op == s.locks[key].op || !HasCommit(w, s, lock.primary, lock.start)
    ensures Legal(w, s, Decide(w, s, key, lock, now).edits, rule)
  {
    var (p, t) := (lock.primary, lock.start);
    assert LockOk(w, s, key, s.locks[key]);
    assert rule == PrimaryFirst(t) ==> LockFollowsPrimary(w, s, s.locks[key]);
    hide Separate, Distinct, Sound, PrimaryDecides, Ready;
    if HasCommit(w, s, p, t) {
      LegalOne(w, s, Seal(key, t, w.txns[t].commitTs, lock.op), rule);
    } else if s.LockedBy(p, t) && !HasRollback(s, p, t) && Expired(now.primary, t, s.locks[p].ttl) {
      LegalTwo(w, s, Abort(p, t), Abort(key, t), rule);
    } else if HasRollback(s, p, t) || !s.LockedBy(p, t) || Expired(now.own, t, lock.ttl) {
      LegalOne(w, s, Abort(key, t), rule);
    }
  }

  lemma ResolveLegal(w: World, s: Store, key: Key, lock: Lock, now: Readings, rule: Rule)
    requires Ready(w, s) && RuleInvariant(w, s, rule) && Names(s, key, lock)
    requires rule == PrimaryFirst(lock.start) ==> Covered(s, key, lock.ttl, now)
    requires rule == StoredOps && lock.op == Put ==>
               !HasCommit(w, s, lock.primary, lock.start) || Version(key, lock.start) in s.data
    requires rule == TrueOps ==> lock.op == s.locks[key].op || !HasCommit(w, s, lock.primary, lock.start)
    ensures Legal(w, s, Resolve(s, key, lock, now).edits, rule)
  {
    hide Resolve, Decide, Legal;
    assert LockOk(w, s, key, s.locks[key]);
    ResolveDecides(w, s, key, lock, now);
    DecideLegal(w, s, key, lock, now, rule);
  }

  // ---------- Prewrite ----------

  /** Clearing a lock by its stored fields, said without any scan. */
  function ClearDirectly(w: World, s: Store, key: Key, t: Ts, now: Readings): seq<Edit> {
    if key in s.locks && s.locks[key].start != t then Decide(w, s, key, s.locks[key], now).edits else []
  }

  lemma ClearDecides(w: World, s: Store, key: Key, t: Ts, now: Readings)
    requires Ready(w, s)
    ensures Clear(s, key, t, now).edits == ClearDirectly(w, s, key, t, now)
  {
    hide Resolve;
    if key in s.locks && s.locks[key].start != t {
      assert LockOk(w, s, key, s.locks[key]);
      ResolveDecides(w, s, key, s.locks[key], now);
    }
  }

  lemma ClearLegal(w: World, s: Store, key: Key, t: Ts, now: Readings, rule: Rule)
    requires Ready(w, s) && RuleInvariant(w, s, rule) && ClearPermitted(s, key, t, now, rule)
    ensures Legal(w, s, Clear(s, key, t, now).edits, rule)
  {
    hide Resolve;
    if key in s.locks && s.locks[key].start != t {
      assert LockOk(w, s, key, s.locks[key]);
      ResolveLegal(w, s, key, s.locks[key], now, rule);
    }
  }

  /** A lock that is not cleared is left alone, and a refused mutation commits nothing. */
  lemma RefusedDoesNothing(s: Store, m: Mutation, t: Ts, p: Key, ttl: u64, now: Readings)
    ensures !Clear(s, m.key, t, now).result ==> Clear(s, m.key, t, now).edits == []
    ensures PrewriteKey(s, m, t, p, ttl, now).result.Refused? ==> PrewriteKey(s, m, t, p, ttl, now).edits == []
  {
    hide Lookup, Run;
    if Clear(s, m.key, t, now).result { ClearUnlocks(s, m.key, t, now); assert m.key in {m.key}; }
  }

  lemma ForeignStep(w: World, s: Store, e: Edit, t: Ts)
    requires Distinct(w) && Sound(w, s) && Enabled(w, s, e) && Obeys(w, s, e, SnapshotAt(MAX_TS))
    requires (e.Seal? || e.Abort?) && e.start != t && t in w.txns
    ensures forall u | NoCommit(s, u) :: NoCommit(Apply(s, e), u)
    ensures forall k | HasRecord(w, Apply(s, e), k, t) :: HasRecord(w, s, k, t)
  {
  }

  /** Clearing locks commits nothing that was not already committed somewhere, and leaves no
      record of the caller. */
  lemma {:induction false} ForeignTrace(w: World, s: Store, es: seq<Edit>, t: Ts)
    requires Distinct(w) && Sound(w, s) && Legal(w, s, es, SnapshotAt(MAX_TS))
    requires Foreign(es, t, {}) && t in w.txns
    ensures forall u | NoCommit(s, u) :: NoCommit(Run(s, es), u)
    ensures forall k | HasRecord(w, Run(s, es), k, t) :: HasRecord(w, s, k, t)
    decreases |es|
  {
    if es != [] {
      ForeignStep(w, s, es[0], t);
      SoundStep(w, s, es[0]);
      ForeignTrace(w, Apply(s, es[0]), es[1..], t);
    }
  }

  lemma {:induction false} BelowTrace(s: Store, es: seq<Edit>, key: Key, t: Ts)
    requires Foreign(es, t, {}) && AllCommitsBelow(s, key, t)
    requires forall i | 0 <= i < |es| && es[i].Seal? && es[i].key == key :: es[i].commitTs < t
    ensures AllCommitsBelow(Run(s, es), key, t)
    decreases |es|
  {
    if es != [] {
      BelowTrace(Apply(s, es[0]), es[1..], key, t);
    }
  }

  lemma ClearSealsBelow(w: World, s: Store, key: Key, t: Ts, now: Readings)
    requires Ready(w, s) && !Overtaken(w, s, key, t)
    ensures forall e | e in ClearDirectly(w, s, key, t, now) && e.Seal? :: e.commitTs < t
  {
    if key in s.locks && s.locks[key].start != t {
      assert LockOk(w, s, key, s.locks[key]);
    }
  }

  /** What one cleared lock leaves for the lock that is laid next. */
  lemma Cleared(w: World, s: Store, key: Key, t: Ts, now: Readings)
    requires Ready(w, s) && t in w.txns && key in w.keys
    requires Conflict(s, key, t) == None && Clear(s, key, t, now).result
    ensures var s' := Run(s, Clear(s, key, t, now).edits);
            && !HasRecord(w, s', key, t) && Held(s', {key}, t)
            && (forall u | NoCommit(s, u) :: NoCommit(s', u))
            && (!Overtaken(w, s, key, t) ==> AllCommitsBelow(s', key, t))
            && (forall k | k in s'.locks :: k in s.locks && s'.locks[k] == s.locks[k])
  {
    hide Clear, Conflict, Legal, Decide;
    var es := Clear(s, key, t, now).edits;
    ConflictScan(w, s, key, t);
    assert AllBelow(s, key, t);
    assert !HasRecord(w, s, key, t);
    ClearLegal(w, s, key, t, now, SnapshotAt(MAX_TS));
    ClearIsForeign(s, key, t, now, {});
    ForeignTrace(w, s, es, t);
    ClearUnlocks(s, key, t, now);
    ForeignKeepsHeld(s, es, t, {}, {});
    if !Overtaken(w, s, key, t) {
      ClearDecides(w, s, key, t, now);
      ClearSealsBelow(w, s, key, t, now);
      assert forall i | 0 <= i < |es| :: es[i] in es;
      BelowTrace(s, es, key, t);
    }
  }

  lemma PrewriteKeyLegal(w: World, s: Store, m: Mutation, t: Ts, p: Key, ttl: u64, now: Readings, rule: Rule)
    requires Ready(w, s) && RuleInvariant(w, s, rule) && t in w.txns && p in w.keys && m.key in w.keys
    requires PrewriteKey(s, m, t, p, ttl, now).result.Accepted? ==> LayPermitted(w, s, m.key, t, p, now, rule)
    ensures Legal(w, s, PrewriteKey(s, m, t, p, ttl, now).edits, rule)
  {
    hide Clear, Conflict, Run;
    RefusedDoesNothing(s, m, t, p, ttl, now);
    if PrewriteKey(s, m, t, p, ttl, now).result.Accepted? {
      ClearLegal(w, s, m.key, t, now, rule);
      Cleared(w, s, m.key, t, now);
      LayLegal(w, s, Clear(s, m.key, t, now).edits, m, t, p, ttl, rule);
    }
  }

  lemma LayLegal(w: World, s: Store, es: seq<Edit>, m: Mutation, t: Ts, p: Key, ttl: u64, rule: Rule)
    requires Ready(w, s) && Legal(w, s, es, rule)
    requires t in w.txns && p in w.keys && m.key in w.keys
    requires var s' := Run(s, es);
             && !HasRecord(w, s', m.key, t) && Held(s', {m.key}, t)
             && (rule == FreshLocks ==> AllCommitsBelow(s', m.key, t))
             && (rule.SnapshotAt? && w.txns[t].commitTs <= rule.readTs ==> NoCommit(s', t))
    requires rule == PrimaryFirst(t) ==> p == w.txns[t].primary && (m.key == p || Touched(w, s, p, t))
    ensures Legal(w, s, es + [Lay(m, t, p, ttl)], rule)
  {
    var s', e := Run(s, es), Lay(m, t, p, ttl);
    FateRun(w, s, es, rule, p, t);
    assert m.key in {m.key};
    LegalOne(w, s', e, rule);
    LegalConcat(w, s, es, [e], rule);
  }

  function Take(es: seq<Edit>, n: nat): seq<Edit> {
    if n <= |es| then es[..n] else es
  }

  lemma TakeAll(es: seq<Edit>)
    ensures Take(es, |es|) == es
  {
  }

  lemma TakeConcat(a: seq<Edit>, b: seq<Edit>, n: nat)
    ensures Take(a + b, n) == if n <= |a| then Take(a, n) else a + Take(b, n - |a|)
  {
  }

  lemma {:induction false} LegalPrefix(w: World, s: Store, es: seq<Edit>, n: nat, rule: Rule)
    requires Legal(w, s, es, rule) && n <= |es|
    ensures Legal(w, s, es[..n], rule)
    decreases n
  {
    if n > 0 {
      LegalPrefix(w, Apply(s, es[0]), es[1..], n - 1, rule);
      assert es[..n][1..] == es[1..][..n - 1] && es[..n][0] == es[0];
    }
  }

  lemma LegalTake(w: World, s: Store, es: seq<Edit>, n: nat, rule: Rule)
    requires Legal(w, s, es, rule)
    ensures Legal(w, s, Take(es, n), rule)
  {
    if n <= |es| { LegalPrefix(w, s, es, n, rule); }
  }

  lemma {:induction false} PrewriteLegal(w: World, s: Store, ms: seq<Mutation>, t: Ts, p: Key, ttl: u64, clock: Clock,
                                         n: nat, rule: Rule)
    requires Ready(w, s) && RuleInvariant(w, s, rule) && t in w.txns && p in w.keys && Keys(ms) <= w.keys
    requires PrewritePermitted(w, s, ms, t, p, ttl, clock, n, rule)
    ensures Legal(w, s, Take(Prewrite(s, ms, t, p, ttl, clock).edits, n), rule)
    decreases |ms|
  {
    hide PrewriteKey, Run, RuleInvariant, LayPermitted, Ready, Legal, Take;
    TakeNone(Prewrite(s, ms, t, p, ttl, clock).edits);
    LegalNone(w, s, rule);
    if ms == [] {
      TakeNothing(n);
    } else if n > 0 {
      var o := PrewriteKey(s, ms[0], t, p, ttl, clock(ms[0].key));
      assert ms[0] in ms && ms[0].key in Keys(ms) && Keys(ms[1..]) <= Keys(ms);
      PrewriteKeyLegal(w, s, ms[0], t, p, ttl, clock(ms[0].key), rule);
      LegalTake(w, s, o.edits, n, rule);
      if o.result.Accepted? {
        var s' := Run(s, o.edits);
        var rest := Prewrite(s', ms[1..], t, p, ttl, clock).edits;
        TakeConcat(o.edits, rest, n);
        if n > |o.edits| {
          InvariantRun(w, s, o.edits, rule);
          PrewriteLegal(w, s', ms[1..], t, p, ttl, clock, n - |o.edits|, rule);
          LegalConcat(w, s, o.edits, Take(rest, n - |o.edits|), rule);
        }
      }
    }
  }

  /** Without a rule every prewrite is permitted. */
  lemma {:induction false} AnyPrewrite(w: World, s: Store, ms: seq<Mutation>, t: Ts, p: Key, ttl: u64, clock: Clock,
                                       n: nat)
    requires t in w.txns
    ensures PrewritePermitted(w, s, ms, t, p, ttl, clock, n, AnyClient)
    decreases |ms|
  {
    hide PrewriteKey, Run;
    if ms != [] {
      var o := PrewriteKey(s, ms[0], t, p, ttl, clock(ms[0].key));
      if n > |o.edits| { AnyPrewrite(w, Run(s, o.edits), ms[1..], t, p, ttl, clock, n - |o.edits|); }
    }
  }

  lemma TakeNone(es: seq<Edit>)
    ensures Take(es, 0) == []
  {
  }

  lemma TakeNothing(n: nat)
    ensures Take([], n) == []
  {
  }

  lemma LegalNone(w: World, s: Store, rule: Rule)
    ensures Legal(w, s, [], rule)
  {
  }

  /** The checks of a batched prewrite, which lay nothing. */
  lemma {:induction false} ClearAllLegal(w: World, s: Store, ms: seq<Mutation>, t: Ts, clock: Clock, n: nat, rule: Rule)
    requires Ready(w, s) && RuleInvariant(w, s, rule) && ClearAllPermitted(s, ms, t, clock, n, rule)
    ensures Legal(w, s, Take(ClearAll(s, ms, t, clock).edits, n), rule)
    decreases |ms|
  {
    hide Clear, Conflict, Run, RuleInvariant, ClearPermitted, Ready;
    if ms != [] && n > 0 && Conflict(s, ms[0].key, t) == None {
      var o := Clear(s, ms[0].key, t, clock(ms[0].key));
      RefusedDoesNothing(s, ms[0], t, [], 0, clock(ms[0].key));
      if o.result {
        var s' := Run(s, o.edits);
        var rest := ClearAll(s', ms[1..], t, clock).edits;
        ClearLegal(w, s, ms[0].key, t, clock(ms[0].key), rule);
        LegalTake(w, s, o.edits, n, rule);
        TakeConcat(o.edits, rest, n);
        if n > |o.edits| {
          InvariantRun(w, s, o.edits, rule);
          ClearAllLegal(w, s', ms[1..], t, clock, n - |o.edits|, rule);
          LegalConcat(w, s, o.edits, Take(rest, n - |o.edits|), rule);
        }
      }
    }
  }

  /** Clearing for a transaction never touches its own locks, so the rule asks nothing of it. */
  lemma {:induction false} OwnClearFree(s: Store, ms: seq<Mutation>, t: Ts, clock: Clock, n: nat, rule: Rule)
    requires rule.PrimaryFirst? ==> rule.txn == t
    ensures ClearAllPermitted(s, ms, t, clock, n, rule)
    decreases |ms|
  {
    hide Clear, Conflict, Run;
    if ms != [] {
      var o := Clear(s, ms[0].key, t, clock(ms[0].key));
      if n > |o.edits| { OwnClearFree(Run(s, o.edits), ms[1..], t, clock, n - |o.edits|, rule); }
    }
  }

  // ---------- An accepted prewrite as a whole ----------

  /** The mutations with the first one on the primary, if there is one, put in front. */
  function MutationAhead(ms: seq<Mutation>, p: Key): seq<Mutation> {
    if p in Keys(ms) then [FirstOn(ms, p)] + ms else ms
  }

  /** The batches of an accepted prewrite one by one; under its own transaction's rule, all locks in the
      way are cleared first, and the primary is laid ahead. */
  function AcceptedTrace(s: Store, ms: seq<Mutation>, t: Ts, p: Key, ttl: u64, clock: Clock, rule: Rule): seq<Edit> {
    if rule == PrimaryFirst(t) then ClearAll(s, ms, t, clock).edits + Staged(MutationAhead(ms, p), t, p, ttl)
    else Prewrite(s, ms, t, p, ttl, clock).edits
  }

  lemma AcceptedAgrees(s: Store, ms: seq<Mutation>, t: Ts, p: Key, ttl: u64, clock: Clock, rule: Rule)
    requires Prewrite(s, ms, t, p, ttl, clock).result.Accepted?
    ensures Run(s, AcceptedTrace(s, ms, t, p, ttl, clock, rule)) == Run(s, Prewrite(s, ms, t, p, ttl, clock).edits)
  {
    hide Prewrite, ClearAll, Staged, Run;
    var es := ClearAll(s, ms, t, clock).edits;
    BatchPrewriteRefines(s, ms, t, p, ttl, clock);
    RunConcat(s, es, Staged(ms, t, p, ttl));
    RunConcat(s, es, Staged(MutationAhead(ms, p), t, p, ttl));
    if p in Keys(ms) { LayAbsorbed(Run(s, es), ms, t, p, ttl, p); }
  }

  lemma {:induction false} ClearAllHolds(s: Store, ms: seq<Mutation>, t: Ts, clock: Clock, done: set<Key>)
    requires Held(s, done, t) && ClearAll(s, ms, t, clock).result.Accepted?
    ensures Held(Run(s, ClearAll(s, ms, t, clock).edits), done + Keys(ms), t)
    decreases |ms|
  {
    hide Clear, Conflict, Run;
    if ms == [] {
      RunNothing(s);
    } else {
      var o := Clear(s, ms[0].key, t, clock(ms[0].key));
      var s' := Run(s, o.edits);
      ClearUnlocks(s, ms[0].key, t, clock(ms[0].key));
      ClearIsForeign(s, ms[0].key, t, clock(ms[0].key), done);
      ForeignKeepsHeld(s, o.edits, t, done, done);
      assert Held(s', done + {ms[0].key}, t) by { assert ms[0].key in {ms[0].key}; }
      ClearAllHolds(s', ms[1..], t, clock, done + {ms[0].key});
      RunConcat(s, o.edits, ClearAll(s', ms[1..], t, clock).edits);
      assert Keys(ms) == {ms[0].key} + Keys(ms[1..]);
    }
  }

  /** Where an accepted prewrite has cleared the way, nothing is recorded for it on its keys. */
  lemma ClearedFor(w: World, s: Store, ms: seq<Mutation>, t: Ts, p: Key, ttl: u64, clock: Clock)
    requires Ready(w, s) && t in w.txns && p in w.keys && Keys(ms) <= w.keys
    requires Prewrite(s, ms, t, p, ttl, clock).result.Accepted?
    ensures var s1 := Run(s, ClearAll(s, ms, t, clock).edits);
            Held(s1, Keys(ms), t) && forall k | k in Keys(ms) :: !HasRecord(w, s1, k, t)
  {
    hide Prewrite, ClearAll, Staged, Run, Separate;
    var es, s1 := Prewrite(s, ms, t, p, ttl, clock).edits, Run(s, ClearAll(s, ms, t, clock).edits);
    BatchPrewriteRefines(s, ms, t, p, ttl, clock);
    RunConcat(s, ClearAll(s, ms, t, clock).edits, Staged(ms, t, p, ttl));
    ClearAllHolds(s, ms, t, clock, {});
    assert {} + Keys(ms) == Keys(ms);
    AnyPrewrite(w, s, ms, t, p, ttl, clock, |es|);
    PrewriteLegal(w, s, ms, t, p, ttl, clock, |es|, AnyClient);
    TakeAll(es);
    InvariantRun(w, s, es, AnyClient);
    LaidStore(s1, ms, t, p, ttl);
    forall k | k in Keys(ms) ensures !HasRecord(w, s1, k, t) { LockKnown(w, Run(s, es), k); }
  }

  lemma {:induction false} LaysLegal(w: World, s: Store, ms: seq<Mutation>, t: Ts, p: Key, ttl: u64)
    requires t in w.txns && p == w.txns[t].primary && p in w.keys && Keys(ms) <= w.keys
    requires Held(s, Keys(ms), t) && forall k | k in Keys(ms) :: !HasRecord(w, s, k, t)
    requires ms != [] ==> ms[0].key == p || Touched(w, s, p, t)
    ensures Legal(w, s, Staged(ms, t, p, ttl), PrimaryFirst(t))
    decreases |ms|
  {
    hide HasRecord;
    if ms != [] {
      var e := Lay(ms[0], t, p, ttl);
      assert ms[0] in ms && ms[0].key in Keys(ms) && Keys(ms[1..]) <= Keys(ms);
      SameRecord(w, s, e, t);
      LaysLegal(w, Apply(s, e), ms[1..], t, p, ttl);
      assert Staged(ms, t, p, ttl)[1..] == Staged(ms[1..], t, p, ttl);
    }
  }

  lemma SameRecord(w: World, s: Store, e: Edit, t: Ts)
    requires e.Lay?
    ensures forall k :: HasRecord(w, Apply(s, e), k, t) <==> HasRecord(w, s, k, t)
  {
  }

  lemma AcceptedLegal(w: World, s: Store, ms: seq<Mutation>, t: Ts, p: Key, ttl: u64, clock: Clock, rule: Rule)
    requires Ready(w, s) && RuleInvariant(w, s, rule) && t in w.txns && p in w.keys && Keys(ms) <= w.keys
    requires Prewrite(s, ms, t, p, ttl, clock).result.Accepted?
    requires AcceptedPermitted(w, s, ms, t, p, ttl, clock, rule)
    ensures Legal(w, s, AcceptedTrace(s, ms, t, p, ttl, clock, rule), rule)
  {
    hide Prewrite, ClearAll, Staged, Run, PrewritePermitted, ClearAllPermitted, RuleInvariant, Ready, Legal;
    if rule == PrimaryFirst(t) {
      var es := ClearAll(s, ms, t, clock).edits;
      OwnClearFree(s, ms, t, clock, |es|, rule);
      ClearAllLegal(w, s, ms, t, clock, |es|, rule);
      TakeAll(es);
      ClearedFor(w, s, ms, t, p, ttl, clock);
      AheadKeys(ms, p);
      StillTouched(w, s, es, rule, p, t);
      LaysLegal(w, Run(s, es), MutationAhead(ms, p), t, p, ttl);
      LegalConcat(w, s, es, Staged(MutationAhead(ms, p), t, p, ttl), rule);
    } else {
      PrewriteLegal(w, s, ms, t, p, ttl, clock, |Prewrite(s, ms, t, p, ttl, clock).edits|, rule);
      TakeAll(Prewrite(s, ms, t, p, ttl, clock).edits);
    }
  }

  lemma AheadKeys(ms: seq<Mutation>, p: Key)
    ensures Keys(MutationAhead(ms, p)) == Keys(ms)
    ensures p in Keys(ms) ==> MutationAhead(ms, p)[0].key == p
  {
    if p in Keys(ms) { FirstOnKey(ms, p); }
  }

  lemma StillTouched(w: World, s: Store, es: seq<Edit>, rule: Rule, key: Key, t: Ts)
    requires Ready(w, s) && Legal(w, s, es, rule)
    ensures Touched(w, s, key, t) ==> Touched(w, Run(s, es), key, t)
  {
    FateRun(w, s, es, rule, key, t);
  }

  // ---------- Commit, rollback, and the other calls ----------

  /** The first held key is the primary, or the primary is committed; a commit below the snapshot is under way. */
  ghost predicate SealPermitted(w: World, s: Store, key: Key, t: Ts, rule: Rule)
    requires t in w.txns
  {
    match rule
    case PrimaryFirst(u) => t == u ==> HasCommit(w, s, w.txns[t].primary, t) || key == w.txns[t].primary
    case SnapshotAt(readTs) => w.txns[t].commitTs > readTs || !NoCommit(s, t)
    case _ => true
  }

  lemma {:induction false} CommitHeldLegal(w: World, s: Store, keys: seq<Key>, t: Ts, rule: Rule)
    requires Ready(w, s) && RuleInvariant(w, s, rule) && t in w.txns
    requires keys != [] ==> SealPermitted(w, s, keys[0], t, rule)
    requires rule == PrimaryFirst(t) && keys != [] ==> HasCommit(w, s, w.txns[t].primary, t) || s.LockedBy(keys[0], t)
    ensures Legal(w, s, CommitHeld(s, keys, t, w.txns[t].commitTs), rule)
    decreases |keys|
  {
    hide RuleInvariant, Ready, NoCommit;
    if keys != [] {
      if s.LockedBy(keys[0], t) {
        var e := Seal(keys[0], t, w.txns[t].commitTs, s.locks[keys[0]].op);
        SealLegal(w, s, e, rule);
        LegalOne(w, s, e, rule);
        InvariantRun(w, s, [e], rule);
        CommitHeldLegal(w, Apply(s, e), keys[1..], t, rule);
      } else {
        CommitHeldLegal(w, s, keys[1..], t, rule);
      }
    }
  }

  lemma SealLegal(w: World, s: Store, e: Edit, rule: Rule)
    requires Ready(w, s) && RuleInvariant(w, s, rule)
    requires e.Seal? && e.start in w.txns && e.commitTs == w.txns[e.start].commitTs
    requires s.LockedBy(e.key, e.start) && s.locks[e.key].op == e.op && SealPermitted(w, s, e.key, e.start, rule)
    ensures Enabled(w, s, e) && Obeys(w, s, e, rule)
    ensures forall k :: SealPermitted(w, Apply(s, e), k, e.start, rule)
    ensures rule == PrimaryFirst(e.start) ==> HasCommit(w, Apply(s, e), w.txns[e.start].primary, e.start)
  {
    assert LockOk(w, s, e.key, s.locks[e.key]);
    RecordsForever(w, s, e, w.txns[e.start].primary, e.start);
    assert Version(e.key, e.commitTs) in Apply(s, e).writes;
  }

  lemma {:induction false} RollbacksLegal(w: World, s: Store, keys: seq<Key>, t: Ts, rule: Rule)
    requires Ready(w, s) && RuleInvariant(w, s, rule) && t in w.txns && forall k | k in keys :: k in w.keys
    requires rule == PrimaryFirst(t) ==>
               keys == [] || HasRollback(s, w.txns[t].primary, t)
               || (keys[0] == w.txns[t].primary && !HasCommit(w, s, keys[0], t))
    ensures Legal(w, s, Rollbacks(s, keys, t), rule)
    decreases |keys|
  {
    hide RuleInvariant, Ready;
    if keys != [] {
      var e := RollbackKey(s, keys[0], t);
      LegalOne(w, s, e, rule);
      InvariantRun(w, s, [e], rule);
      RollbackForever(w, s, e, t);
      RollbacksLegal(w, Apply(s, e), keys[1..], t, rule);
    }
  }

  lemma RollbackForever(w: World, s: Store, e: Edit, t: Ts)
    requires Ready(w, s) && Enabled(w, s, e) && (e.Abort? || e.Mark?) && e.start == t && t in w.txns
    ensures HasRollback(s, w.txns[t].primary, t) || e.key == w.txns[t].primary ==>
              HasRollback(Apply(s, e), w.txns[t].primary, t)
  {
    RecordsForever(w, s, e, w.txns[t].primary, t);
  }

  lemma StatusLegal(w: World, s: Store, key: Key, t: Ts, now: u64, rule: Rule)
    requires Ready(w, s) && key in w.keys
    requires rule == PrimaryFirst(t) && t in w.txns && s.LockedBy(key, t) && Expired(now, t, s.locks[key].ttl) ==>
               key == w.txns[t].primary || HasRollback(s, w.txns[t].primary, t)
    ensures Legal(w, s, CheckStatus(s, key, t, now).edits, rule)
  {
    hide Lookup;
    if s.LockedBy(key, t) {
      assert LockOk(w, s, key, s.locks[key]);
      if Expired(now, t, s.locks[key].ttl) { LegalOne(w, s, Abort(key, t), rule); }
    }
  }

  lemma GetLegal(w: World, s: Store, key: Key, readTs: Ts, now: Readings, rule: Rule)
    requires Ready(w, s) && RuleInvariant(w, s, rule) && key in w.keys
    requires Disciplined(w, s, GetCall(key, readTs, now), rule)
    ensures Legal(w, s, Get(s, key, readTs, now).edits, rule)
  {
    hide Lookup, Resolve, Run, Ready;
    if key in s.locks && s.locks[key].start <= readTs {
      ResolveLegal(w, s, key, AssumedLock(s.locks[key].primary, s.locks[key].start), now, rule);
    }
  }

  /** The keys with the primary, if it is one of them, put in front. */
  function PrimaryAhead(w: World, keys: seq<Key>, t: Ts): seq<Key> {
    if t in w.txns && w.txns[t].primary in keys then [w.txns[t].primary] + keys else keys
  }

  /** The call's batches one key at a time, the primary ahead: batched calls leave the stores of their
      one-by-one forms, and the order within a call that is not cut off does not matter. */
  function Trace(w: World, s: Store, c: Call, rule: Rule): seq<Edit> {
    if Edits(s, c) == [] then []
    else match c
      case PrewriteCall(ms, t, p, ttl, clock) =>
        if Prewrite(s, ms, t, p, ttl, clock).result.Accepted? then AcceptedTrace(s, ms, t, p, ttl, clock, rule)
        else Edits(s, c)
      case BatchPrewriteCall(ms, t, p, ttl, clock) =>
        if BatchPrewrite(s, ms, t, p, ttl, clock).result.Accepted? then AcceptedTrace(s, ms, t, p, ttl, clock, rule)
        else Edits(s, c)
      case CommitCall(keys, t, ts) => CommitHeld(s, PrimaryAhead(w, keys, t), t, ts)
      case BatchCommitCall(keys, t, ts) => CommitHeld(s, PrimaryAhead(w, keys, t), t, ts)
      case RollbackCall(keys, t) => Rollbacks(s, PrimaryAhead(w, keys, t), t)
      case Interrupted(call, n) => if Edits(s, c) == Edits(s, call) then Trace(w, s, call, rule) else Edits(s, c)
      case _ => Edits(s, c)
  }

  lemma TraceAgrees(w: World, s: Store, c: Call, rule: Rule)
    ensures Run(s, Trace(w, s, c, rule)) == Run(s, Edits(s, c))
  {
    hide Prewrite, BatchPrewrite, CommitHeld, BatchCommit, Rollbacks, Lookup, Run, AcceptedTrace;
    match c
    case PrewriteCall(ms, t, p, ttl, clock) =>
      if Prewrite(s, ms, t, p, ttl, clock).result.Accepted? { AcceptedAgrees(s, ms, t, p, ttl, clock, rule); }
    case BatchPrewriteCall(ms, t, p, ttl, clock) =>
      BatchPrewriteRefines(s, ms, t, p, ttl, clock);
      if BatchPrewrite(s, ms, t, p, ttl, clock).result.Accepted? { AcceptedAgrees(s, ms, t, p, ttl, clock, rule); }
    case CommitCall(keys, t, ts) => AheadAgrees(w, s, keys, t, ts);
    case BatchCommitCall(keys, t, ts) => AheadAgrees(w, s, keys, t, ts);
    case RollbackCall(keys, t) =>
      if PrimaryAhead(w, keys, t) != keys { RollbackAbsorbed(s, keys, t, w.txns[t].primary); }
    case Interrupted(call, _) => TraceAgrees(w, s, call, rule);
    case _ =>
  }

  lemma AheadAgrees(w: World, s: Store, keys: seq<Key>, t: Ts, ts: Ts)
    ensures Run(s, CommitHeld(s, PrimaryAhead(w, keys, t), t, ts)) == Run(s, CommitHeld(s, keys, t, ts))
    ensures Run(s, CommitHeld(s, keys, t, ts)) == Run(s, BatchCommit(s, keys, t, ts))
  {
    hide CommitHeld, BatchCommit, Run;
    CommitsAgree(s, s, keys, t, ts);
    CommitsAgree(s, s, PrimaryAhead(w, keys, t), t, ts);
    if PrimaryAhead(w, keys, t) != keys { RepeatAbsorbed(s, keys, t, ts, w.txns[t].primary); }
  }

  lemma {:induction false} CallLegal(w: World, s: Store, c: Call, rule: Rule)
    requires Ready(w, s) && RuleInvariant(w, s, rule) && Permitted(w, s, c, rule)
    ensures Legal(w, s, Trace(w, s, c, rule), rule)
  {
    hide Prewrite, ClearAll, CommitHeld, BatchCommit, Rollbacks, Lookup, Resolve, CheckStatus, Get, Run, Ready,
         RuleInvariant, PrewritePermitted, ClearAllPermitted, Staged, AcceptedPermitted, AcceptedTrace;
    if Edits(s, c) != [] {
      match c
      case PrewriteCall(ms, t, p, ttl, clock) =>
        if Prewrite(s, ms, t, p, ttl, clock).result.Accepted? {
          AcceptedLegal(w, s, ms, t, p, ttl, clock, rule);
        } else {
          PrewriteLegal(w, s, ms, t, p, ttl, clock, |Edits(s, c)|, rule);
          TakeAll(Edits(s, c));
        }
      case BatchPrewriteCall(_, _, _, _, _) => BatchPrewriteLegal(w, s, c, rule);
      case CommitCall(keys, t, _) => CommitAheadLegal(w, s, keys, t, rule);
      case BatchCommitCall(keys, t, _) => CommitAheadLegal(w, s, keys, t, rule);
      case RollbackCall(keys, t) => RollbacksLegal(w, s, PrimaryAhead(w, keys, t), t, rule);
      case HeartbeatCall(key, t, ttl) => LegalOne(w, s, Extend(key, ttl), rule);
      case StatusCall(key, t, now) => StatusLegal(w, s, key, t, now, rule);
      case ResolveCall(key, now) => StoredResolveLegal(w, s, key, now, rule);
      case GetCall(key, readTs, now) => GetLegal(w, s, key, readTs, now, rule);
      case Interrupted(call, n) =>
        if Edits(s, c) == Edits(s, call) {
          CallLegal(w, s, call, rule);
        } else {
          CutLegal(w, s, call, n, rule);
        }
    }
  }

  lemma BatchPrewriteLegal(w: World, s: Store, c: Call, rule: Rule)
    requires Ready(w, s) && RuleInvariant(w, s, rule) && c.BatchPrewriteCall? && Belongs(w, c)
    requires BatchPermitted(w, s, c, rule)
    ensures Legal(w, s, Trace(w, s, c, rule), rule)
  {
    hide Prewrite, ClearAll, Run, Ready, RuleInvariant, ClearAllPermitted, Staged, AcceptedPermitted, AcceptedTrace;
    var all := BatchPrewrite(s, c.ms, c.start, c.primary, c.ttl, c.clock);
    if all.result.Accepted? {
      BatchPrewriteRefines(s, c.ms, c.start, c.primary, c.ttl, c.clock);
      AcceptedLegal(w, s, c.ms, c.start, c.primary, c.ttl, c.clock, rule);
    } else {
      ClearAllLegal(w, s, c.ms, c.start, c.clock, |all.edits|, rule);
      TakeAll(all.edits);
    }
  }

  lemma CommitAheadLegal(w: World, s: Store, keys: seq<Key>, t: Ts, rule: Rule)
    requires Ready(w, s) && RuleInvariant(w, s, rule) && t in w.txns && CommitPermitted(w, s, keys, t, rule)
    ensures Legal(w, s, CommitHeld(s, PrimaryAhead(w, keys, t), t, w.txns[t].commitTs), rule)
  {
    hide Ready, RuleInvariant;
    CommitHeldLegal(w, s, PrimaryAhead(w, keys, t), t, rule);
  }

  lemma CutLegal(w: World, s: Store, c: Call, n: nat, rule: Rule)
    requires Ready(w, s) && RuleInvariant(w, s, rule) && Belongs(w, c) && CutDisciplined(w, s, c, n, rule)
    requires Edits(s, Interrupted(c, n)) != [] && Edits(s, Interrupted(c, n)) != Edits(s, c)
    ensures Legal(w, s, Edits(s, Interrupted(c, n)), rule)
  {
    hide Prewrite, ClearAll, CommitHeld, BatchCommit, Rollbacks, Lookup, Resolve, CheckStatus, Get, Run, Ready,
         RuleInvariant, PrewritePermitted, ClearAllPermitted, Staged;
    match c
    case PrewriteCall(ms, t, p, ttl, clock) => PrewriteLegal(w, s, ms, t, p, ttl, clock, n, rule);
    case BatchPrewriteCall(ms, t, _, _, clock) => ClearAllLegal(w, s, ms, t, clock, n, rule);
    case CommitCall(keys, t, _) =>
      CommitHeldLegal(w, s, keys, t, rule);
      LegalTake(w, s, Edits(s, c), n, rule);
    case RollbackCall(keys, t) =>
      RollbacksLegal(w, s, keys, t, rule);
      LegalTake(w, s, Edits(s, c), n, rule);
    case StatusCall(key, t, now) =>
      StatusLegal(w, s, key, t, now, rule);
      LegalTake(w, s, Edits(s, c), n, rule);
    case ResolveCall(key, now) =>
      StoredResolveLegal(w, s, key, now, rule);
      LegalTake(w, s, Edits(s, c), n, rule);
    case GetCall(key, readTs, now) =>
      GetLegal(w, s, key, readTs, now, rule);
      LegalTake(w, s, Edits(s, c), n, rule);
    case _ =>
  }

  lemma StoredResolveLegal(w: World, s: Store, key: Key, now: Readings, rule: Rule)
    requires Ready(w, s) && RuleInvariant(w, s, rule) && key in w.keys && Disciplined(w, s, ResolveCall(key, now), rule)
    ensures key in s.locks ==> Legal(w, s, Resolve(s, key, s.locks[key], now).edits, rule)
  {
    hide Resolve;
    if key in s.locks {
      assert LockOk(w, s, key, s.locks[key]);
      ResolveLegal(w, s, key, s.locks[key], now, rule);
    }
  }

  // ---------- Runs of calls ----------

  function After(s: Store, cs: seq<Call>): Store
    decreases |cs|
  {
    if cs == [] then s else After(Run(s, Edits(s, cs[0])), cs[1..])
  }

  /** Every call is permitted in the store it meets. */
  ghost predicate Allowed(w: World, s: Store, cs: seq<Call>, rule: Rule)
    decreases |cs|
  {
    cs != [] ==> Permitted(w, s, cs[0], rule) && Allowed(w, Run(s, Edits(s, cs[0])), cs[1..], rule)
  }

  function FullTrace(w: World, s: Store, cs: seq<Call>, rule: Rule): seq<Edit>
    decreases |cs|
  {
    if cs == [] then [] else Trace(w, s, cs[0], rule) + FullTrace(w, Run(s, Edits(s, cs[0])), cs[1..], rule)
  }

  /** A run of permitted calls is a legal run of batches to the same store. */
  lemma {:induction false} RunLegal(w: World, s: Store, cs: seq<Call>, rule: Rule)
    requires Ready(w, s) && RuleInvariant(w, s, rule) && Allowed(w, s, cs, rule)
    ensures Legal(w, s, FullTrace(w, s, cs, rule), rule)
    ensures Run(s, FullTrace(w, s, cs, rule)) == After(s, cs)
    ensures Ready(w, After(s, cs)) && RuleInvariant(w, After(s, cs), rule)
    decreases |cs|
  {
    hide Trace, Edits, Permitted, Ready, RuleInvariant;
    if cs != [] {
      var es, s' := Trace(w, s, cs[0], rule), Run(s, Edits(s, cs[0]));
      CallLegal(w, s, cs[0], rule);
      TraceAgrees(w, s, cs[0], rule);
      InvariantRun(w, s, es, rule);
      RunLegal(w, s', cs[1..], rule);
      LegalConcat(w, s, es, FullTrace(w, s', cs[1..], rule), rule);
      RunConcat(s, es, FullTrace(w, s', cs[1..], rule));
    }
  }

  /** Without a rule nothing is asked of a call but to belong. */
  lemma {:induction false} AnyDisciplined(w: World, s: Store, c: Call)
    requires Belongs(w, c)
    ensures Disciplined(w, s, c, AnyClient) && forall n: nat :: CutDisciplined(w, s, c, n, AnyClient)
    decreases c
  {
    hide Prewrite, BatchPrewrite, ClearAll, Edits, Run, PrewritePermitted, ClearAllPermitted;
    match c
    case PrewriteCall(ms, t, p, ttl, clock) =>
      forall n: nat ensures PrewritePermitted(w, s, ms, t, p, ttl, clock, n, AnyClient) {
        AnyPrewrite(w, s, ms, t, p, ttl, clock, n);
      }
    case BatchPrewriteCall(ms, t, p, ttl, clock) =>
      AnyPrewrite(w, s, ms, t, p, ttl, clock, |Prewrite(s, ms, t, p, ttl, clock).edits|);
      forall n: nat ensures ClearAllPermitted(s, ms, t, clock, n, AnyClient) {
        OwnClearFree(s, ms, t, clock, n, AnyClient);
      }
    case Interrupted(call, _) => AnyDisciplined(w, s, call);
    case _ =>
  }

  lemma PermittedAny(w: World, s: Store, c: Call, rule: Rule)
    requires Permitted(w, s, c, rule)
    ensures Permitted(w, s, c, AnyClient)
  {
    hide Edits, Disciplined, Belongs;
    if Edits(s, c) != [] { AnyDisciplined(w, s, c); }
  }

  lemma {:induction false} AllowedAny(w: World, s: Store, cs: seq<Call>, rule: Rule)
    requires Allowed(w, s, cs, rule)
    ensures Allowed(w, s, cs, AnyClient)
    decreases |cs|
  {
    hide Edits, Permitted, Run;
    if cs != [] {
      PermittedAny(w, s, cs[0], rule);
      AllowedAny(w, Run(s, Edits(s, cs[0])), cs[1..], rule);
    }
  }

  // ---------- Calls on several keys ----------

  /** The same call made key by key: other calls may come between the keys. */
  function Singles(c: Call): seq<Call> {
    match c
    case PrewriteCall(ms, t, p, ttl, clock) =>
      seq(|ms|, i requires 0 <= i < |ms| => PrewriteCall([ms[i]], t, p, ttl, clock))
    case CommitCall(keys, t, ts) =>
      seq(|keys|, i requires 0 <= i < |keys| =>
            if i == 0 then CommitCall([keys[i]], t, ts) else BatchCommitCall([keys[i]], t, ts))
    case RollbackCall(keys, t) => seq(|keys|, i requires 0 <= i < |keys| => RollbackCall([keys[i]], t))
    case _ => [c]
  }

  lemma {:induction false} PrewriteSingles(s: Store, ms: seq<Mutation>, t: Ts, p: Key, ttl: u64, clock: Clock)
    requires Prewrite(s, ms, t, p, ttl, clock).result.Accepted?
    ensures After(s, Singles(PrewriteCall(ms, t, p, ttl, clock))) == Run(s, Prewrite(s, ms, t, p, ttl, clock).edits)
    decreases |ms|
  {
    hide PrewriteKey, Run;
    RunNothing(s);
    if ms != [] {
      var one := PrewriteKey(s, ms[0], t, p, ttl, clock(ms[0].key));
      var s' := Run(s, one.edits);
      PrewriteUnfolds(s, ms, t, p, ttl, clock);
      PrewriteSingles(s', ms[1..], t, p, ttl, clock);
      assert [ms[0]][1..] == [];
      PrewriteUnfolds(s, [ms[0]], t, p, ttl, clock);
      RunNothing(s');
      assert Singles(PrewriteCall(ms, t, p, ttl, clock))[1..] == Singles(PrewriteCall(ms[1..], t, p, ttl, clock));
    }
  }

  function HeldSingles(keys: seq<Key>, t: Ts, ts: Ts): seq<Call> {
    seq(|keys|, i requires 0 <= i < |keys| => BatchCommitCall([keys[i]], t, ts))
  }

  lemma OneHeld(s: Store, key: Key, t: Ts, ts: Ts)
    ensures Run(s, BatchCommit(s, [key], t, ts))
            == if s.LockedBy(key, t) then Apply(s, Seal(key, t, ts, s.locks[key].op)) else s
  {
    assert [key][1..] == [];
    if s.LockedBy(key, t) {
      var e := Seal(key, t, ts, s.locks[key].op);
      assert BatchCommit(s, [key], t, ts) == [e];
      RunOne(s, e);
    }
  }

  lemma {:induction false} CommitHeldSingles(s: Store, keys: seq<Key>, t: Ts, ts: Ts)
    ensures After(s, HeldSingles(keys, t, ts)) == Run(s, CommitHeld(s, keys, t, ts))
    decreases |keys|
  {
    hide Run, Apply, BatchCommit;
    RunNothing(s);
    if keys != [] {
      OneHeld(s, keys[0], t, ts);
      CommitHeldUnfolds(s, keys, t, ts);
      CommitHeldSingles(Run(s, BatchCommit(s, [keys[0]], t, ts)), keys[1..], t, ts);
      assert HeldSingles(keys, t, ts)[1..] == HeldSingles(keys[1..], t, ts);
    }
  }

  lemma OneRollback(s: Store, key: Key, t: Ts)
    ensures Rollbacks(s, [key], t) == [RollbackKey(s, key, t)]
  {
    assert [key][1..] == [];
  }

  lemma {:induction false} RollbackSingles(s: Store, keys: seq<Key>, t: Ts)
    ensures After(s, Singles(RollbackCall(keys, t))) == Run(s, Rollbacks(s, keys, t))
    decreases |keys|
  {
    hide Run, Apply;
    RunNothing(s);
    if keys != [] {
      var e := RollbackKey(s, keys[0], t);
      OneRollback(s, keys[0], t);
      RunOne(s, e);
      RollbacksUnfold(s, keys, t);
      RollbackSingles(Apply(s, e), keys[1..], t);
      assert Singles(RollbackCall(keys, t))[1..] == Singles(RollbackCall(keys[1..], t));
    }
  }

  /** A call that is not refused is a run of calls on one key each. */
  lemma SinglesAgree(s: Store, c: Call)
    requires c.PrewriteCall? ==> Prewrite(s, c.ms, c.start, c.primary, c.ttl, c.clock).result.Accepted?
    requires c.CommitCall? ==> Commit(s, c.keys, c.start, c.commitTs).result.Accepted?
    ensures After(s, Singles(c)) == Run(s, Edits(s, c))
  {
    hide Run, Prewrite, CommitHeld, Rollbacks, Lookup, Resolve;
    match c
    case PrewriteCall(ms, t, p, ttl, clock) => PrewriteSingles(s, ms, t, p, ttl, clock);
    case RollbackCall(keys, t) => RollbackSingles(s, keys, t);
    case CommitCall(keys, t, ts) =>
      RunNothing(s);
      CommitHeldSingles(s, keys, t, ts);
      if keys != [] {
        CommitIsBatch(s, keys[0], t, ts);
        assert Singles(c)[1..] == HeldSingles(keys, t, ts)[1..];
      }
    case _ => assert [c][1..] == [];
  }

  lemma CommitIsBatch(s: Store, key: Key, t: Ts, ts: Ts)
    requires s.LockedBy(key, t)
    ensures Commit(s, [key], t, ts).edits == BatchCommit(s, [key], t, ts)
  {
    hide Apply;
    var e := Seal(key, t, ts, s.locks[key].op);
    assert [key][1..] == [];
    assert CommitHeld(Apply(s, e), [], t, ts) == [] && BatchCommit(s, [], t, ts) == [];
    assert CommitHeld(s, [key], t, ts) == [e] + [] && BatchCommit(s, [key], t, ts) == [e] + [];
  }
}
