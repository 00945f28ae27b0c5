/**
 The scans of the resolver and of the conflict check, on sound stores over separate keys:
 what they decide, said without any scan.
 */
module Resolver {
  import opened Bytes
  import opened Wrappers
  import opened KeyEncoder
  import opened Records
  import opened Store
  import opened Txn
  import opened Protocol
  import Hlc

  ghost predicate Ready(w: World, s: Store) {
    Separate(w.keys) && Distinct(w) && Sound(w, s)
  }

  lemma SoundWithin(w: World, s: Store)
    requires Sound(w, s)
    ensures KeysWithin(s.writes, w.keys)
  {
    forall v | v in s.writes ensures v.key in w.keys { assert RecordOk(w, v, s.writes[v]); }
  }

  /** The status scan meets a commit before a rollback of the same transaction, and nothing else. */
  lemma StatusScan(w: World, s: Store, key: Key, t: Ts)
    requires Ready(w, s) && key in w.keys
    ensures Lookup(s.writes, key, MAX_TS, StartedAt(t)) ==
            if HasCommit(w, s, key, t) then Some(w.txns[t].commitTs)
            else if HasRollback(s, key, t) then Some(t)
            else None
  {
    var test := StartedAt(t);
    SoundWithin(w, s);
    LookupIsNewest(s.writes, w.keys, key, MAX_TS, test);
    forall ts: Ts | Matches(s.writes, key, MAX_TS, test, ts)
      ensures t in w.txns
      ensures (HasCommit(w, s, key, t) && ts == w.txns[t].commitTs) || (HasRollback(s, key, t) && ts == t)
    {
      assert RecordOk(w, Version(key, ts), s.writes[Version(key, ts)]);
    }
    if HasCommit(w, s, key, t) {
      assert IsNewest(s.writes, key, MAX_TS, test, w.txns[t].commitTs);
    } else if HasRollback(s, key, t) {
      assert IsNewest(s.writes, key, MAX_TS, test, t);
    }
  }

  /** The last wall-clock reading at which a lock is alive: the physical time of its start plus its time to
      live, less 2^64 if that does not fit. */
  function Deadline(start: Ts, ttl: u64): u64 {
    var end := Hlc.Decode(start).physical + ttl;
    if end < TWO_64 then end else end - TWO_64
  }

  lemma ExpiredExactly(now: u64, start: Ts, ttl: u64)
    ensures Expired(now, start, ttl) <==> now > Deadline(start, ttl)
  {
  }

  /** A lock taken at a stamp of the clock lives for its time to live, to the millisecond. */
  lemma DeadlineOfStamp(stamp: Hlc.Timestamp, ttl: u64)
    requires Hlc.Fits(stamp) && stamp.physical + ttl < TWO_64
    ensures Deadline(Hlc.Encode(stamp), ttl) == stamp.physical + ttl
  {
    Hlc.DecodeEncodeExactly(stamp);
  }

  /** A record that is newer than the transaction, or as old and not its own rollback. */
  predicate InConflict(s: Store, v: Version, t: Ts)
    requires v in s.writes
  {
    v.ts > t || (v.ts == t && s.writes[v] != WriteRecord(t, Rollback))
  }

  ghost predicate AllBelow(s: Store, key: Key, t: Ts) {
    forall v | v in s.writes && v.key == key :: v.ts < t
  }

  /** A prewrite passes the conflict check exactly when every record on the key is older than it. */
  lemma ConflictScan(w: World, s: Store, key: Key, t: Ts)
    requires Ready(w, s) && key in w.keys
    ensures Conflict(s, key, t) == None <==> AllBelow(s, key, t)
    ensures Conflict(s, key, t) == Some(TransactionRolledBack)
            <==> HasRollback(s, key, t) && forall v | v in s.writes && v.key == key :: v.ts <= t
    ensures Conflict(s, key, t) == Some(WriteConflict(key, t))
            <==> exists v :: v in s.writes && v.key == key && InConflict(s, v, t)
  {
    hide Lookup, Separate, Distinct;
    var test := Blocks(t);
    SoundWithin(w, s);
    LookupIsNewest(s.writes, w.keys, key, MAX_TS, test);
    forall ts: Ts | Version(key, ts) in s.writes
      ensures Matches(s.writes, key, MAX_TS, test, ts) <==> ts >= t
    {
      assert RecordOk(w, Version(key, ts), s.writes[Version(key, ts)]);
    }
    forall v | v in s.writes && v.key == key ensures v == Version(key, v.ts) {}
    if HasRollback(s, key, t) && forall v | v in s.writes && v.key == key :: v.ts <= t {
      assert IsNewest(s.writes, key, MAX_TS, test, t);
    }
    var found := Lookup(s.writes, key, MAX_TS, test);
    if found.Some? {
      assert RecordOk(w, Version(key, found.value), s.writes[Version(key, found.value)]);
      if !HasRollback(s, key, t) || found.value != t { assert InConflict(s, Version(key, found.value), t); }
    }
  }

  /** Lock resolution by direct lookups. */
  function Decide(w: World, s: Store, key: Key, lock: Lock, now: Readings): Outcome<bool> {
    var (p, t) := (lock.primary, lock.start);
    if HasCommit(w, s, p, t) then Outcome(true, [Seal(key, t, w.txns[t].commitTs, lock.op)])
    else if HasRollback(s, p, t) || !s.LockedBy(p, t) then Outcome(true, [Abort(key, t)])
    else if Expired(now.primary, t, s.locks[p].ttl) then Outcome(true, [Abort(p, t), Abort(key, t)])
    else if Expired(now.own, t, lock.ttl) then Outcome(true, [Abort(key, t)])
    else Outcome(false, [])
  }

  lemma ResolveDecides(w: World, s: Store, key: Key, lock: Lock, now: Readings)
    requires Ready(w, s) && lock.primary in w.keys
    ensures Resolve(s, key, lock, now) == Decide(w, s, key, lock, now)
  {
    hide Lookup, Ready;
    StatusScan(w, s, lock.primary, lock.start);
  }
}
