/** Runs in which garbage collections come between the calls. */
module GcRuns {
  import opened Bytes
  import opened Wrappers
  import opened KeyEncoder
  import opened Records
  import opened Store
  import opened Txn
  import opened Protocol
  import opened Runs
  import opened Resolver
  import opened Calls
  import opened Theorems
  import opened Gc

  datatype Event = Do(call: Call) | Collect(safePoint: Ts)

  function Next(s: Store, e: Event): Store {
    match e
    case Do(c) => Run(s, Edits(s, c))
    case Collect(safePoint) => AfterGc(s, safePoint)
  }

  function AfterEvents(s: Store, es: seq<Event>): Store
    decreases |es|
  {
    if es == [] then s else AfterEvents(Next(s, es[0]), es[1..])
  }

  /** Calls as under the rule.  For values to stay present, a collection may not take that of a commit it
      keeps; for a primary to stay in charge, its safe point may not lie above the transaction's start. */
  ghost predicate May(w: World, s: Store, e: Event, rule: Rule) {
    match e
    case Do(c) => Permitted(w, s, c, rule)
    case Collect(safePoint) =>
      (match rule
       case StoredOps => forall key :: KeptValuesKept(s, key, safePoint)
       case PrimaryFirst(t) => safePoint <= t
       case _ => true)
  }

  ghost predicate AllowedEvents(w: World, s: Store, es: seq<Event>, rule: Rule)
    decreases |es|
  {
    es != [] ==> May(w, s, es[0], rule) && AllowedEvents(w, Next(s, es[0]), es[1..], rule)
  }

  lemma GcKeepsFirstCommitter(a: Store, b: Store, safePoint: Ts)
    requires Collects(a, b, safePoint) && FirstCommitterWon(a)
    ensures FirstCommitterWon(b)
  {
    forall u, v | u in b.writes && v in b.writes ensures Apart(b, u, v) { assert Apart(a, u, v); }
    forall k, v | k in b.locks && v in b.writes ensures Above(b, k, v) { assert Above(a, k, v); }
  }

  /** Values stay present exactly when no kept commit loses its own. */
  lemma GcKeepsValuesExactly(w: World, s: Store, safePoint: Ts)
    requires Ready(w, s) && ValuesPresent(s)
    ensures ValuesPresent(AfterGc(s, safePoint)) <==> forall key :: KeptValuesKept(s, key, safePoint)
  {
    hide AfterGc, ValueCollected, Shadowed, Ready;
    var b := AfterGc(s, safePoint);
    GcKeepsSound(w, s, safePoint);
    if forall key :: KeptValuesKept(s, key, safePoint) {
      forall v | v in b.writes && b.writes[v].op == Put ensures Version(v.key, b.writes[v].start) in b.data {
        assert KeptValuesKept(s, v.key, safePoint) && v == Version(v.key, v.ts);
      }
      forall k | k in b.locks && b.locks[k].op == Put ensures Version(k, b.locks[k].start) in b.data {
        GcKeepsLockedValues(w, s, safePoint, k);
      }
    }
    if ValuesPresent(b) {
      forall key ensures KeptValuesKept(s, key, safePoint) {
        forall ts: Ts | && Version(key, ts) in s.writes && s.writes[Version(key, ts)].op == Put
                        && !Shadowed(s.writes, Version(key, ts), safePoint)
                        && Version(key, s.writes[Version(key, ts)].start) in s.data
          ensures !ValueCollected(s.writes, Version(key, s.writes[Version(key, ts)].start), safePoint)
        {
          assert Version(key, ts) in b.writes;
        }
      }
    }
  }

  /** A collection at or below a transaction's start keeps all that is said about it. */
  lemma GcKeepsTransaction(w: World, s: Store, safePoint: Ts, key: Key, t: Ts)
    requires Ready(w, s) && safePoint <= t
    ensures var b := AfterGc(s, safePoint);
            && b.locks == s.locks && (HasCommit(w, b, key, t) <==> HasCommit(w, s, key, t))
            && (HasRollback(b, key, t) <==> HasRollback(s, key, t))
  {
    hide AfterGc, Ready;
    GcKeepsSound(w, s, safePoint);
    if t in w.txns {
      GcKeepsRecent(w, s, AfterGc(s, safePoint), safePoint, key, t);
    } else {
      NoRollbackOutside(w, s, key, t);
      NoRollbackOutside(w, AfterGc(s, safePoint), key, t);
      GcKeepsLocks(s, AfterGc(s, safePoint), safePoint);
    }
  }

  lemma NoRollbackOutside(w: World, s: Store, key: Key, t: Ts)
    requires Ready(w, s) && t !in w.txns
    ensures !HasRollback(s, key, t)
  {
    if Version(key, t) in s.writes { RecordKnown(w, s, Version(key, t)); }
  }

  lemma GcKeepsLocks(a: Store, b: Store, safePoint: Ts)
    requires Collects(a, b, safePoint)
    ensures b.locks == a.locks && forall v | v in b.writes :: v in a.writes && b.writes[v] == a.writes[v]
  {
  }

  lemma GcKeepsPrimary(w: World, s: Store, safePoint: Ts, t: Ts)
    requires Ready(w, s) && safePoint <= t && PrimaryDecides(w, s, t)
    ensures PrimaryDecides(w, AfterGc(s, safePoint), t)
  {
    hide AfterGc, Ready, Collects;
    var b := AfterGc(s, safePoint);
    GcKeepsSound(w, s, safePoint);
    GcKeepsLocks(s, b, safePoint);
    if t in w.txns { GcKeepsTransaction(w, s, safePoint, w.txns[t].primary, t); }
    forall v | v in b.writes && b.writes[v].start == t ensures FollowsPrimary(w, b, b.writes[v]) {
      assert FollowsPrimary(w, s, s.writes[v]);
    }
    forall k | k in b.locks && b.locks[k].start == t ensures LockFollowsPrimary(w, b, b.locks[k]) {
      assert LockFollowsPrimary(w, s, s.locks[k]);
    }
  }

  /** Over every run of calls and collections, soundness and the rule's invariant are kept. */
  lemma {:induction false} EventsKeep(w: World, s: Store, es: seq<Event>, rule: Rule)
    requires Ready(w, s) && RuleInvariant(w, s, rule) && AllowedEvents(w, s, es, rule)
    ensures Ready(w, AfterEvents(s, es)) && RuleInvariant(w, AfterEvents(s, es), rule)
    decreases |es|
  {
    hide Ready, RuleInvariant, Next, May;
    if es != [] {
      EventKeeps(w, s, es[0], rule);
      EventsKeep(w, Next(s, es[0]), es[1..], rule);
    }
  }

  lemma EventKeeps(w: World, s: Store, e: Event, rule: Rule)
    requires Ready(w, s) && RuleInvariant(w, s, rule) && May(w, s, e, rule)
    ensures Ready(w, Next(s, e)) && RuleInvariant(w, Next(s, e), rule)
  {
    hide Ready, Edits, Permitted, AfterGc, Collects, FirstCommitterWon, ValuesPresent, PrimaryDecides, Run, Trace,
         KeptValuesKept;
    match e
    case Do(c) =>
      CallLegal(w, s, c, rule);
      TraceAgrees(w, s, c, rule);
      InvariantRun(w, s, Trace(w, s, c, rule), rule);
    case Collect(safePoint) =>
      GcKeepsSound(w, s, safePoint);
      match rule
      case FreshLocks => GcKeepsFirstCommitter(s, AfterGc(s, safePoint), safePoint);
      case StoredOps => GcKeepsValuesExactly(w, s, safePoint);
      case PrimaryFirst(t) => GcKeepsPrimary(w, s, safePoint, t);
      case _ =>
  }

  /** With collections anywhere in the run, of two commits on one key the later one started after the
      earlier one committed. */
  lemma FirstCommitterWinsWithGc(w: World, es: seq<Event>, a: Version, b: Version)
    requires WorldOk(w) && AllowedEvents(w, EMPTY, es, FreshLocks)
    requires var s := AfterEvents(EMPTY, es); CommittedAt(s, a) && CommittedAt(s, b) && a.key == b.key && a.ts < b.ts
    ensures a.ts < AfterEvents(EMPTY, es).writes[b].start
  {
    hide AllowedEvents, AfterEvents;
    EmptyReady(w, FreshLocks);
    EventsKeep(w, EMPTY, es, FreshLocks);
    assert Apart(AfterEvents(EMPTY, es), a, b);
  }

  /** With collections that take no kept commit's value, no read finds a commit record without its value. */
  lemma NeverCorruptedWithGc(w: World, es: seq<Event>, key: Key, readTs: Ts)
    requires WorldOk(w) && AllowedEvents(w, EMPTY, es, StoredOps)
    ensures Read(AfterEvents(EMPTY, es), key, readTs) != Err(CorruptedState)
  {
    hide AllowedEvents, AfterEvents, Lookup;
    EmptyReady(w, StoredOps);
    EventsKeep(w, EMPTY, es, StoredOps);
  }

  /** With collections anywhere, no key is both locked by a transaction and recorded for it. */
  lemma NeverBothWithGc(w: World, es: seq<Event>, key: Key, t: Ts)
    requires WorldOk(w) && AllowedEvents(w, EMPTY, es, AnyClient)
    ensures var s := AfterEvents(EMPTY, es); !(s.LockedBy(key, t) && HasRecord(w, s, key, t))
  {
    hide AllowedEvents, AfterEvents;
    EmptyReady(w, AnyClient);
    EventsKeep(w, EMPTY, es, AnyClient);
    var s := AfterEvents(EMPTY, es);
    if s.LockedBy(key, t) { LockKnown(w, s, key); }
  }

  // ---------- One transaction, with collections at or below its start ----------

  /** No collection of the run has a safe point above the timestamp. */
  ghost predicate CollectsUpTo(es: seq<Event>, t: Ts) {
    forall i | 0 <= i < |es| && es[i].Collect? :: es[i].safePoint <= t
  }

  /** The key was locked for the transaction at some point of the run. */
  ghost predicate PrewrittenIn(w: World, s: Store, es: seq<Event>, key: Key, t: Ts)
    decreases |es|
  {
    es != [] &&
    (|| (es[0].Do? && LaysOn(Trace(w, s, es[0].call, AnyClient), key, t))
     || PrewrittenIn(w, Next(s, es[0]), es[1..], key, t))
  }

  ghost predicate LaysOn(es: seq<Edit>, key: Key, t: Ts) {
    exists i :: 0 <= i < |es| && es[i].Lay? && es[i].mutation.key == key && es[i].start == t
  }

  /** What outlives an event: traces, commits, and rollbacks that are alone. */
  lemma EventFate(w: World, s: Store, e: Event, rule: Rule, key: Key, t: Ts)
    requires Ready(w, s) && May(w, s, e, rule) && (e.Collect? ==> e.safePoint <= t)
    ensures var s' := Next(s, e);
            && (Touched(w, s, key, t) ==> Touched(w, s', key, t))
            && (HasCommit(w, s, key, t) ==> HasCommit(w, s', key, t))
            && (HasRollback(s, key, t) ==> HasRollback(s', key, t))
            && (HasRollback(s, key, t) && !HasCommit(w, s, key, t) ==> !HasCommit(w, s', key, t))
            && (e.Do? && LaysOn(Trace(w, s, e.call, AnyClient), key, t) ==> Touched(w, s', key, t))
  {
    hide Edits, Permitted, AfterGc, Run, Trace, Separate, HasCommit, HasRollback;
    match e
    case Do(c) =>
      PermittedAny(w, s, c, rule);
      CallLegal(w, s, c, AnyClient);
      TraceAgrees(w, s, c, AnyClient);
      var es := Trace(w, s, c, AnyClient);
      FateRun(w, s, es, AnyClient, key, t);
      if i :| 0 <= i < |es| && es[i].Lay? && es[i].mutation.key == key && es[i].start == t {
        LaidIsTouched(w, s, es, AnyClient, i);
      }
    case Collect(safePoint) => GcKeepsTransaction(w, s, safePoint, key, t);
  }

  lemma {:induction false} EventsFate(w: World, s: Store, es: seq<Event>, rule: Rule, key: Key, t: Ts)
    requires Ready(w, s) && RuleInvariant(w, s, rule) && AllowedEvents(w, s, es, rule) && CollectsUpTo(es, t)
    ensures var s' := AfterEvents(s, es);
            && (Touched(w, s, key, t) || PrewrittenIn(w, s, es, key, t) ==> Touched(w, s', key, t))
            && (HasCommit(w, s, key, t) ==> HasCommit(w, s', key, t))
            && (HasRollback(s, key, t) && !HasCommit(w, s, key, t) ==>
                  HasRollback(s', key, t) && !HasCommit(w, s', key, t))
    decreases |es|
  {
    hide Ready, RuleInvariant, Next, May, HasCommit, HasRollback, HasRecord, Touched, LaysOn;
    if es != [] {
      EventFate(w, s, es[0], rule, key, t);
      EventKeeps(w, s, es[0], rule);
      EventsFate(w, Next(s, es[0]), es[1..], rule, key, t);
    }
  }

  lemma {:induction false} AllowedCollects(w: World, s: Store, es: seq<Event>, t: Ts)
    requires AllowedEvents(w, s, es, PrimaryFirst(t))
    ensures CollectsUpTo(es, t)
    decreases |es|
  {
    hide Next;
    if es != [] {
      AllowedCollects(w, Next(s, es[0]), es[1..], t);
      assert es == [es[0]] + es[1..];
    }
  }

  /** Atomicity of a transaction, with collections anywhere in the run at or below its start. */
  lemma AtomicityWithGc(w: World, es: seq<Event>, t: Ts, v: Version, key: Key)
    requires WorldOk(w) && AllowedEvents(w, EMPTY, es, PrimaryFirst(t))
    requires var s := AfterEvents(EMPTY, es); CommittedAt(s, v) && s.writes[v].start == t
    ensures var s := AfterEvents(EMPTY, es);
            && t in w.txns && v.ts == w.txns[t].commitTs && !HasRollback(s, key, t)
            && (PrewrittenIn(w, EMPTY, es, key, t) ==> s.LockedBy(key, t) || HasCommit(w, s, key, t))
  {
    hide AllowedEvents, AfterEvents, Separate, Distinct, PrewrittenIn, CollectsUpTo;
    EmptyReady(w, PrimaryFirst(t));
    EventsKeep(w, EMPTY, es, PrimaryFirst(t));
    AllowedCollects(w, EMPTY, es, t);
    EventsFate(w, EMPTY, es, PrimaryFirst(t), key, t);
    var s := AfterEvents(EMPTY, es);
    RecordKnown(w, s, v);
    assert FollowsPrimary(w, s, s.writes[v]);
    RollbackFollows(w, s, key, t);
  }

  /** A lock's primary is accounted for, with collections at or below the transaction's start. */
  lemma NoOrphansWithGc(w: World, es: seq<Event>, t: Ts, key: Key)
    requires WorldOk(w) && AllowedEvents(w, EMPTY, es, PrimaryFirst(t)) && AfterEvents(EMPTY, es).LockedBy(key, t)
    ensures var s := AfterEvents(EMPTY, es); Touched(w, s, s.locks[key].primary, t)
  {
    hide AllowedEvents, AfterEvents;
    EmptyReady(w, PrimaryFirst(t));
    EventsKeep(w, EMPTY, es, PrimaryFirst(t));
    LockFollowsKnown(w, AfterEvents(EMPTY, es), t, key);
  }

  /** A status once answered stays: Committed for good, RolledBack for good where the record shows it,
      with collections at or below the transaction's start. */
  lemma VerdictForeverWithGc(w: World, s: Store, es: seq<Event>, key: Key, t: Ts, now: u64, later: u64)
    requires Ready(w, s) && AllowedEvents(w, s, es, AnyClient) && CollectsUpTo(es, t) && key in w.keys
    ensures var before := CheckStatus(s, key, t, now).result;
            var after := CheckStatus(AfterEvents(s, es), key, t, later).result;
            && (before.Committed? ==> after == before)
            && (HasRollback(s, key, t) && !HasCommit(w, s, key, t) ==> before == RolledBack && after == RolledBack)
  {
    hide AllowedEvents, AfterEvents, Lookup, Ready, CollectsUpTo;
    EventsFate(w, s, es, AnyClient, key, t);
    EventsKeep(w, s, es, AnyClient);
    StatusScan(w, s, key, t);
    StatusScan(w, AfterEvents(s, es), key, t);
  }

  // ---------- Repeatable reads ----------

  /** Collections stay at or below the snapshot, and are safe for the key where they happen. */
  ghost predicate SafeFor(s: Store, es: seq<Event>, key: Key, readTs: Ts)
    decreases |es|
  {
    es != [] ==>
      && (es[0].Collect? ==> es[0].safePoint <= readTs + 1 && GcSafe(s, key, es[0].safePoint))
      && SafeFor(Next(s, es[0]), es[1..], key, readTs)
  }

  lemma EventKeepsRead(w: World, s: Store, e: Event, key: Key, readTs: Ts)
    requires Ready(w, s) && key in w.keys && Quiet(w, s, key, readTs) && May(w, s, e, SnapshotAt(readTs))
    requires e.Collect? ==> e.safePoint <= readTs + 1 && GcSafe(s, key, e.safePoint)
    ensures Quiet(w, Next(s, e), key, readTs) && ReadVersion(Next(s, e), key, readTs) == ReadVersion(s, key, readTs)
  {
    hide Edits, Permitted, AfterGc, Run, Trace, ReadVersion, GcSafe, Separate, Distinct, Sound, Collects;
    match e
    case Do(c) =>
      CallLegal(w, s, c, SnapshotAt(readTs));
      TraceAgrees(w, s, c, SnapshotAt(readTs));
      InvariantRun(w, s, Trace(w, s, c, SnapshotAt(readTs)), SnapshotAt(readTs));
      SnapshotRun(w, s, Trace(w, s, c, SnapshotAt(readTs)), key, readTs);
      SameRead(w, s, Next(s, e), key, readTs);
    case Collect(safePoint) =>
      GcKeepsSound(w, s, safePoint);
      GcKeepsLocks(s, AfterGc(s, safePoint), safePoint);
      SoundWithin(w, s);
      GcPreservesReadsExactly(s, w.keys, key, safePoint);
  }

  lemma {:induction false} EventsKeepRead(w: World, s: Store, es: seq<Event>, key: Key, readTs: Ts)
    requires Ready(w, s) && key in w.keys && Quiet(w, s, key, readTs)
    requires AllowedEvents(w, s, es, SnapshotAt(readTs)) && SafeFor(s, es, key, readTs)
    ensures var s' := AfterEvents(s, es);
            Ready(w, s') && Quiet(w, s', key, readTs) && ReadVersion(s', key, readTs) == ReadVersion(s, key, readTs)
    decreases |es|
  {
    hide Ready, Next, May, Quiet, ReadVersion, GcSafe;
    if es != [] {
      EventKeepsRead(w, s, es[0], key, readTs);
      EventKeeps(w, s, es[0], SnapshotAt(readTs));
      EventsKeepRead(w, Next(s, es[0]), es[1..], key, readTs);
    }
  }

  /** Two answered gets at one snapshot give the same value, with calls and collections between them. */
  lemma RepeatableReadWithGc(w: World, s: Store, es: seq<Event>, key: Key, readTs: Ts, now: Readings, later: Readings)
    requires Ready(w, s) && key in w.keys && Get(s, key, readTs, now).result.Ok?
    requires var s1 := Run(s, Get(s, key, readTs, now).edits);
             && AllowedEvents(w, s1, es, SnapshotAt(readTs)) && SafeFor(s1, es, key, readTs)
             && Get(AfterEvents(s1, es), key, readTs, later).result.Ok?
    ensures var s2 := AfterEvents(Run(s, Get(s, key, readTs, now).edits), es);
            Get(s2, key, readTs, later).result == Get(s, key, readTs, now).result
  {
    hide Get, Run, AllowedEvents, SafeFor, AfterEvents, Ready, Quiet, ReadVersion, Read;
    var s1 := AnsweredGet(w, s, key, readTs, now);
    EventsKeepRead(w, s1, es, key, readTs);
    var s2 := AfterEvents(s1, es);
    var s3 := AnsweredGet(w, s2, key, readTs, later);
    GetKeepsRead(w, s2, key, readTs, later);
  }

  /** The store an answered get leaves behind, which reads as it answered. */
  lemma AnsweredGet(w: World, s: Store, key: Key, readTs: Ts, now: Readings) returns (s1: Store)
    requires Ready(w, s) && key in w.keys && Get(s, key, readTs, now).result.Ok?
    ensures s1 == Run(s, Get(s, key, readTs, now).edits) && Ready(w, s1) && Quiet(w, s1, key, readTs)
    ensures ReadVersion(s1, key, readTs) == Ok(Get(s, key, readTs, now).result.value)
  {
    hide Get, Run, Quiet, ReadVersion, Ready;
    s1 := Run(s, Get(s, key, readTs, now).edits);
    GetReads(s, key, readTs, now);
    GetLegal(w, s, key, readTs, now, SnapshotAt(readTs));
    InvariantRun(w, s, Get(s, key, readTs, now).edits, SnapshotAt(readTs));
    ReadIsQuiet(w, s1, key, readTs);
  }

  lemma GetKeepsRead(w: World, s: Store, key: Key, readTs: Ts, now: Readings)
    requires Ready(w, s) && key in w.keys && Quiet(w, s, key, readTs)
    ensures ReadVersion(Run(s, Get(s, key, readTs, now).edits), key, readTs) == ReadVersion(s, key, readTs)
  {
    hide Get, Run, Quiet, ReadVersion;
    GetLegal(w, s, key, readTs, now, SnapshotAt(readTs));
    InvariantRun(w, s, Get(s, key, readTs, now).edits, SnapshotAt(readTs));
    SnapshotRun(w, s, Get(s, key, readTs, now).edits, key, readTs);
    SameRead(w, s, Run(s, Get(s, key, readTs, now).edits), key, readTs);
  }
}
