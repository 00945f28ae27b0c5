/**
 Inductive invariants of the commit protocol over every sequence of batches.

 A world fixes what clients agree on beforehand: a space of separate keys and, for each transaction
 (named by its start timestamp), its primary key and its commit timestamp.  All start and commit
 timestamps are distinct.  Batches of different calls may interleave in any order.
 */
module Protocol {
  import opened Bytes
  import opened Wrappers
  import opened KeyEncoder
  import opened Records
  import opened Store
  import opened Txn

  datatype Plan = Plan(primary: Key, commitTs: Ts)

  datatype World = World(keys: set<Key>, txns: map<Ts, Plan>)

  /** Start and commit timestamps are all different, and a commit comes after its start. */
  ghost predicate Distinct(w: World) {
    && (forall t | t in w.txns :: t < w.txns[t].commitTs)
    && (forall t, u | t in w.txns && u in w.txns :: w.txns[t].commitTs != u)
    && (forall t, u | t in w.txns && u in w.txns && t != u :: w.txns[t].commitTs != w.txns[u].commitTs)
  }

  // ---------- What the store says about a transaction on a key ----------

  predicate HasCommit(w: World, s: Store, key: Key, t: Ts) {
    && t in w.txns
    && var v := Version(key, w.txns[t].commitTs);
       v in s.writes && s.writes[v].start == t && s.writes[v].op != Rollback
  }

  predicate HasRollback(s: Store, key: Key, t: Ts) {
    Version(key, t) in s.writes && s.writes[Version(key, t)] == WriteRecord(t, Rollback)
  }

  predicate HasRecord(w: World, s: Store, key: Key, t: Ts) {
    HasCommit(w, s, key, t) || HasRollback(s, key, t)
  }

  /** The transaction has a trace on the key: its lock or a record. */
  predicate Touched(w: World, s: Store, key: Key, t: Ts) {
    s.LockedBy(key, t) || HasRecord(w, s, key, t)
  }

  // ---------- Invariants ----------

  predicate RecordOk(w: World, v: Version, r: WriteRecord) {
    v.key in w.keys && r.start in w.txns
    && v.ts == if r.op == Rollback then r.start else w.txns[r.start].commitTs
  }

  predicate LockOk(w: World, s: Store, key: Key, l: Lock) {
    && key in w.keys && l.primary in w.keys && l.start in w.txns && l.op != Rollback
    && !HasRecord(w, s, key, l.start)
  }

  /** Records sit where their transaction puts them, and no key is both locked by a transaction
      and holds a record of it. */
  ghost predicate Sound(w: World, s: Store) {
    && (forall v | v in s.writes :: RecordOk(w, v, s.writes[v]))
    && (forall k | k in s.locks :: LockOk(w, s, k, s.locks[k]))
  }

  ghost predicate FollowsPrimary(w: World, s: Store, r: WriteRecord) {
    r.start in w.txns &&
    var p := w.txns[r.start].primary;
    if r.op == Rollback then HasRollback(s, p, r.start) else HasCommit(w, s, p, r.start)
  }

  ghost predicate LockFollowsPrimary(w: World, s: Store, l: Lock) {
    && l.start in w.txns
    && l.primary == w.txns[l.start].primary
    && Touched(w, s, l.primary, l.start)
  }

  ghost predicate OneVerdict(w: World, s: Store, t: Ts) {
    t in w.txns ==> !(HasCommit(w, s, w.txns[t].primary, t) && HasRollback(s, w.txns[t].primary, t))
  }

  /** The primary decides for a transaction: its records all follow the record on its primary, the
      primary of its locks is accounted for, and the primary is not both committed and rolled back. */
  ghost predicate PrimaryDecides(w: World, s: Store, t: Ts) {
    && (forall v | v in s.writes && s.writes[v].start == t :: FollowsPrimary(w, s, s.writes[v]))
    && (forall k | k in s.locks && s.locks[k].start == t :: LockFollowsPrimary(w, s, s.locks[k]))
    && OneVerdict(w, s, t)
  }

  /** Of two commits on one key, the later one started after the earlier one committed; a lock
      holder started after every commit on its key. */
  ghost predicate FirstCommitterWon(s: Store) {
    && (forall a, b | a in s.writes && b in s.writes :: Apart(s, a, b))
    && (forall k, v | k in s.locks && v in s.writes :: Above(s, k, v))
  }

  /** The two commits are far enough apart. */
  predicate Apart(s: Store, a: Version, b: Version)
    requires a in s.writes && b in s.writes
  {
    a.key == b.key && a.ts < b.ts && s.writes[a].op != Rollback && s.writes[b].op != Rollback
    ==> a.ts < s.writes[b].start
  }

  /** The lock holder started after the commit. */
  predicate Above(s: Store, k: Key, v: Version)
    requires k in s.locks && v in s.writes
  {
    v.key == k && s.writes[v].op != Rollback ==> v.ts < s.locks[k].start
  }

  /** Every committed or locked Put has its value stored. */
  ghost predicate ValuesPresent(s: Store) {
    && (forall v | v in s.writes && s.writes[v].op == Put :: Version(v.key, s.writes[v].start) in s.data)
    && (forall k | k in s.locks && s.locks[k].op == Put :: Version(k, s.locks[k].start) in s.data)
  }

  // ---------- Steps ----------

  /** What the code itself guarantees of each of its batches when timestamps are distinct. */
  predicate Enabled(w: World, s: Store, e: Edit) {
    match e
    case Lay(m, t, p, _) =>
      && m.key in w.keys && p in w.keys && t in w.txns
      && !HasRecord(w, s, m.key, t)
      && (m.key in s.locks ==> s.locks[m.key].start == t)
    case Seal(k, t, c, op) => t in w.txns && c == w.txns[t].commitTs && op != Rollback && s.LockedBy(k, t)
    case Abort(k, t) => k in w.keys && t in w.txns && (k in s.locks ==> s.locks[k].start == t)
    case Mark(k, t) => k in w.keys && t in w.txns && !s.LockedBy(k, t)
    case Extend(_, _) => true
  }

  /** No commit record of the transaction on any key. */
  ghost predicate NoCommit(s: Store, t: Ts) {
    forall v | v in s.writes && s.writes[v].start == t :: s.writes[v].op == Rollback
  }

  ghost predicate AllCommitsBelow(s: Store, key: Key, t: Ts) {
    forall v | v in s.writes && v.key == key && s.writes[v].op != Rollback :: v.ts < t
  }

  /** What clients add, rule by rule. */
  datatype Rule =
    | AnyClient
    | PrimaryFirst(txn: Ts)  // the primary of this transaction is laid, committed and rolled back before the rest
    | FreshLocks             // locks are laid above every commit on their key
    | StoredOps              // locks are committed with an operation whose value exists
    | TrueOps                // locks are committed with the operation they were laid for
    | SnapshotAt(readTs: Ts) // what commits at or below readTs lays before it commits, and has begun to

  ghost predicate Obeys(w: World, s: Store, e: Edit, rule: Rule) {
    match rule
    case AnyClient => true
    case PrimaryFirst(t) =>
      e.Extend? || e.start != t ||
      (t in w.txns &&
       var first := w.txns[t].primary;
       match e
       case Lay(m, _, p, _) => p == first && (m.key == p || Touched(w, s, p, t))
       case Seal(k, _, _, _) => k == first || HasCommit(w, s, first, t)
       case _ => (e.key == first && !HasCommit(w, s, first, t)) || HasRollback(s, first, t))
    case FreshLocks => e.Lay? ==> AllCommitsBelow(s, e.mutation.key, e.start)
    case StoredOps => e.Seal? && e.op == Put ==> Version(e.key, e.start) in s.data
    case TrueOps => e.Seal? ==> s.LockedBy(e.key, e.start) && e.op == s.locks[e.key].op
    case SnapshotAt(readTs) =>
      && (e.Lay? && e.start in w.txns && w.txns[e.start].commitTs <= readTs ==> NoCommit(s, e.start))
      && (e.Seal? && e.commitTs <= readTs ==> !NoCommit(s, e.start))
  }

  ghost predicate Legal(w: World, s: Store, es: seq<Edit>, rule: Rule)
    decreases |es|
  {
    es != [] ==> Enabled(w, s, es[0]) && Obeys(w, s, es[0], rule) && Legal(w, Apply(s, es[0]), es[1..], rule)
  }

  lemma {:induction false} LegalConcat(w: World, s: Store, a: seq<Edit>, b: seq<Edit>, rule: Rule)
    requires Legal(w, s, a, rule) && Legal(w, Run(s, a), b, rule)
    ensures Legal(w, s, a + b, rule)
    decreases |a|
  {
    if a == [] {
      assert a + b == b;
    } else {
      assert (a + b)[1..] == a[1..] + b;
      LegalConcat(w, Apply(s, a[0]), a[1..], b, rule);
    }
  }

  // ---------- Each step keeps the invariants ----------

  lemma PairDistinct(w: World, t: Ts, u: Ts)
    requires Distinct(w) && t in w.txns && u in w.txns
    ensures w.txns[t].commitTs != u && w.txns[u].commitTs != t && t < w.txns[t].commitTs
    ensures t != u ==> w.txns[t].commitTs != w.txns[u].commitTs
  {
  }

  lemma RecordKnown(w: World, s: Store, v: Version)
    requires Sound(w, s) && v in s.writes
    ensures RecordOk(w, v, s.writes[v])
  {
  }

  lemma LockKnown(w: World, s: Store, k: Key)
    requires Sound(w, s) && k in s.locks
    ensures LockOk(w, s, k, s.locks[k])
  {
  }

  lemma LockOkStep(w: World, s: Store, e: Edit, k: Key)
    requires Distinct(w) && Sound(w, s) && Enabled(w, s, e) && k in Apply(s, e).locks
    ensures LockOk(w, Apply(s, e), k, Apply(s, e).locks[k])
  {
    hide Distinct, Sound;
    if k in s.locks {
      LockKnown(w, s, k);
      if !e.Extend? { PairDistinct(w, e.start, s.locks[k].start); }
    }
  }

  lemma SoundStep(w: World, s: Store, e: Edit)
    requires Distinct(w) && Sound(w, s) && Enabled(w, s, e)
    ensures Sound(w, Apply(s, e))
  {
    var s' := Apply(s, e);
    forall k | k in s'.locks ensures LockOk(w, s', k, s'.locks[k]) { LockOkStep(w, s, e, k); }
    assert e.Seal? && e.key in s.locks ==> LockOk(w, s, e.key, s.locks[e.key]);
  }

  lemma CommitsKnown(s: Store, a: Version, b: Version)
    requires FirstCommitterWon(s) && a in s.writes && b in s.writes
    ensures Apart(s, a, b)
  {
  }

  lemma HolderKnown(s: Store, k: Key, v: Version)
    requires FirstCommitterWon(s) && k in s.locks && v in s.writes
    ensures Above(s, k, v)
  {
  }

  lemma ApartStep(w: World, s: Store, e: Edit, a: Version, b: Version)
    requires Distinct(w) && Sound(w, s) && FirstCommitterWon(s) && Enabled(w, s, e)
    requires a in Apply(s, e).writes && b in Apply(s, e).writes
    ensures Apart(Apply(s, e), a, b)
  {
    hide Distinct, Sound, FirstCommitterWon;
    if a in s.writes && b in s.writes { CommitsKnown(s, a, b); }
    if e.Seal? {
      PairDistinct(w, e.start, e.start);
      if a in s.writes { HolderKnown(s, e.key, a); }
      if b in s.writes { HolderKnown(s, e.key, b); }
    }
  }

  lemma AboveStep(w: World, s: Store, e: Edit, k: Key, v: Version)
    requires FirstCommitterWon(s) && Enabled(w, s, e) && Obeys(w, s, e, FreshLocks)
    requires k in Apply(s, e).locks && v in Apply(s, e).writes
    ensures Above(Apply(s, e), k, v)
  {
    assert k in s.locks && v in s.writes ==> Above(s, k, v);
  }

  lemma FirstCommitterStep(w: World, s: Store, e: Edit)
    requires Distinct(w) && Sound(w, s) && FirstCommitterWon(s)
    requires Enabled(w, s, e) && Obeys(w, s, e, FreshLocks)
    ensures FirstCommitterWon(Apply(s, e))
  {
    var s' := Apply(s, e);
    forall a, b | a in s'.writes && b in s'.writes ensures Apart(s', a, b) { ApartStep(w, s, e, a, b); }
    forall k, v | k in s'.locks && v in s'.writes ensures Above(s', k, v) { AboveStep(w, s, e, k, v); }
  }

  lemma ValuesStep(w: World, s: Store, e: Edit)
    requires ValuesPresent(s) && Enabled(w, s, e) && Obeys(w, s, e, StoredOps)
    ensures ValuesPresent(Apply(s, e))
  {
  }

  lemma RecordsForever(w: World, s: Store, e: Edit, key: Key, t: Ts)
    requires Distinct(w) && Sound(w, s) && Enabled(w, s, e)
    ensures HasCommit(w, s, key, t) ==> HasCommit(w, Apply(s, e), key, t)
    ensures HasRollback(s, key, t) ==> HasRollback(Apply(s, e), key, t)
  {
    hide Distinct, Sound;
    if HasRollback(s, key, t) { RecordKnown(w, s, Version(key, t)); }
    if HasRecord(w, s, key, t) && !e.Lay? && !e.Extend? { PairDistinct(w, e.start, t); }
  }

  /** A trace, a commit and a bare rollback on a key are each forever. */
  lemma FateStep(w: World, s: Store, e: Edit, key: Key, t: Ts)
    requires Distinct(w) && Sound(w, s) && Enabled(w, s, e)
    ensures Touched(w, s, key, t) ==> Touched(w, Apply(s, e), key, t)
    ensures HasRollback(s, key, t) && !HasCommit(w, s, key, t) ==> !HasCommit(w, Apply(s, e), key, t)
  {
    hide Distinct, Sound;
    RecordsForever(w, s, e, key, t);
    if s.LockedBy(key, t) { LockKnown(w, s, key); }
    if t in w.txns && !e.Lay? && !e.Extend? { PairDistinct(w, e.start, t); }
  }

  lemma RecordFollowsStep(w: World, s: Store, e: Edit, t: Ts, v: Version)
    requires Distinct(w) && Sound(w, s) && PrimaryDecides(w, s, t)
    requires Enabled(w, s, e) && Obeys(w, s, e, PrimaryFirst(t))
    requires v in Apply(s, e).writes && Apply(s, e).writes[v].start == t
    ensures FollowsPrimary(w, Apply(s, e), Apply(s, e).writes[v])
  {
    var r := Apply(s, e).writes[v];
    if v in s.writes && s.writes[v] == r {
      assert FollowsPrimary(w, s, r);
      RecordsForever(w, s, e, w.txns[t].primary, t);
    } else if e.key != w.txns[t].primary {
      RecordsForever(w, s, e, w.txns[t].primary, t);
    }
  }

  lemma LockFollowsKnown(w: World, s: Store, t: Ts, k: Key)
    requires PrimaryDecides(w, s, t) && s.LockedBy(k, t)
    ensures LockFollowsPrimary(w, s, s.locks[k])
  {
  }

  lemma LockFollowsStep(w: World, s: Store, e: Edit, t: Ts, k: Key)
    requires Distinct(w) && Sound(w, s) && PrimaryDecides(w, s, t)
    requires Enabled(w, s, e) && Obeys(w, s, e, PrimaryFirst(t))
    requires Apply(s, e).LockedBy(k, t)
    ensures LockFollowsPrimary(w, Apply(s, e), Apply(s, e).locks[k])
  {
    hide Distinct, Sound, PrimaryDecides, HasRecord, Touched;
    var l := Apply(s, e).locks[k];
    if e.Lay? && e.mutation.key == k {
      FateStep(w, s, e, e.primary, e.start);
      if k == e.primary { LockTouches(w, Apply(s, e), k, e.start); }
    } else {
      LockFollowsKnown(w, s, t, k);
      FateStep(w, s, e, l.primary, l.start);
    }
  }

  lemma LockTouches(w: World, s: Store, k: Key, t: Ts)
    requires s.LockedBy(k, t)
    ensures Touched(w, s, k, t)
  {
  }

  lemma PrimaryDecidesStep(w: World, s: Store, e: Edit, t: Ts)
    requires Distinct(w) && Sound(w, s) && PrimaryDecides(w, s, t)
    requires Enabled(w, s, e) && Obeys(w, s, e, PrimaryFirst(t))
    ensures PrimaryDecides(w, Apply(s, e), t)
  {
    var s' := Apply(s, e);
    forall v | v in s'.writes && s'.writes[v].start == t ensures FollowsPrimary(w, s', s'.writes[v]) {
      RecordFollowsStep(w, s, e, t, v);
    }
    forall k | k in s'.locks && s'.locks[k].start == t ensures LockFollowsPrimary(w, s', s'.locks[k]) {
      LockFollowsStep(w, s, e, t, k);
    }
    PrimaryVerdictStep(w, s, e, t);
  }

  lemma PrimaryVerdictStep(w: World, s: Store, e: Edit, t: Ts)
    requires Distinct(w) && Sound(w, s) && OneVerdict(w, s, t)
    requires Enabled(w, s, e) && Obeys(w, s, e, PrimaryFirst(t))
    ensures OneVerdict(w, Apply(s, e), t)
  {
    hide Distinct, Sound;
    if e.Seal? { LockKnown(w, s, e.key); }
    if t in w.txns && !e.Lay? && !e.Extend? { PairDistinct(w, e.start, t); }
  }
}
