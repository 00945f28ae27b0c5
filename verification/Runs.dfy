/** Consequences of the step invariants for every legal sequence of batches. */
module Runs {
  import opened Bytes
  import opened Wrappers
  import opened KeyEncoder
  import opened Records
  import opened Store
  import opened Txn
  import opened Protocol

  lemma {:induction false} SoundRun(w: World, s: Store, es: seq<Edit>, rule: Rule)
    requires Distinct(w) && Sound(w, s) && Legal(w, s, es, rule)
    ensures Sound(w, Run(s, es))
    decreases |es|
  {
    if es != [] {
      SoundStep(w, s, es[0]);
      SoundRun(w, Apply(s, es[0]), es[1..], rule);
    }
  }

  lemma {:induction false} PrimaryDecidesRun(w: World, s: Store, es: seq<Edit>, t: Ts)
    requires Distinct(w) && Sound(w, s) && PrimaryDecides(w, s, t) && Legal(w, s, es, PrimaryFirst(t))
    ensures Sound(w, Run(s, es)) && PrimaryDecides(w, Run(s, es), t)
    decreases |es|
  {
    if es != [] {
      SoundStep(w, s, es[0]);
      PrimaryDecidesStep(w, s, es[0], t);
      PrimaryDecidesRun(w, Apply(s, es[0]), es[1..], t);
    }
  }

  lemma {:induction false} FirstCommitterRun(w: World, s: Store, es: seq<Edit>)
    requires Distinct(w) && Sound(w, s) && FirstCommitterWon(s) && Legal(w, s, es, FreshLocks)
    ensures Sound(w, Run(s, es)) && FirstCommitterWon(Run(s, es))
    decreases |es|
  {
    if es != [] {
      SoundStep(w, s, es[0]);
      FirstCommitterStep(w, s, es[0]);
      FirstCommitterRun(w, Apply(s, es[0]), es[1..]);
    }
  }

  lemma {:induction false} ValuesRun(w: World, s: Store, es: seq<Edit>)
    requires ValuesPresent(s) && Legal(w, s, es, StoredOps)
    ensures ValuesPresent(Run(s, es))
    decreases |es|
  {
    if es != [] {
      ValuesStep(w, s, es[0]);
      ValuesRun(w, Apply(s, es[0]), es[1..]);
    }
  }

  /** Traces, commits and bare rollbacks outlive every run. */
  lemma {:induction false} FateRun(w: World, s: Store, es: seq<Edit>, rule: Rule, key: Key, t: Ts)
    requires Distinct(w) && Sound(w, s) && Legal(w, s, es, rule)
    ensures Touched(w, s, key, t) ==> Touched(w, Run(s, es), key, t)
    ensures HasCommit(w, s, key, t) ==> HasCommit(w, Run(s, es), key, t)
    ensures HasRollback(s, key, t) ==> HasRollback(Run(s, es), key, t)
    ensures HasRollback(s, key, t) && !HasCommit(w, s, key, t) ==> !HasCommit(w, Run(s, es), key, t)
    decreases |es|
  {
    if es != [] {
      SoundStep(w, s, es[0]);
      RecordsForever(w, s, es[0], key, t);
      FateStep(w, s, es[0], key, t);
      FateRun(w, Apply(s, es[0]), es[1..], rule, key, t);
    }
  }

  /** A prewritten key is at all later times locked by the transaction or holds a record of it. */
  lemma {:induction false} LaidIsTouched(w: World, s: Store, es: seq<Edit>, rule: Rule, i: nat)
    requires Distinct(w) && Sound(w, s) && Legal(w, s, es, rule)
    requires i < |es| && es[i].Lay?
    ensures Touched(w, Run(s, es), es[i].mutation.key, es[i].start)
    decreases |es|
  {
    SoundStep(w, s, es[0]);
    if i == 0 {
      FateRun(w, Apply(s, es[0]), es[1..], rule, es[0].mutation.key, es[0].start);
    } else {
      LaidIsTouched(w, Apply(s, es[0]), es[1..], rule, i - 1);
    }
  }

  // ---------- Snapshots ----------

  predicate CommittedAt(s: Store, v: Version) {
    v in s.writes && s.writes[v].op != Rollback
  }

  /** The two stores agree on whether the version is a commit, and on its value. */
  predicate SameAt(a: Store, b: Store, v: Version) {
    && (CommittedAt(a, v) <==> CommittedAt(b, v))
    && (CommittedAt(a, v) ==>
          var d := Version(v.key, a.writes[v].start);
          && a.writes[v] == b.writes[v] && (d in a.data <==> d in b.data)
          && (d in a.data ==> a.data[d] == b.data[d]))
  }

  ghost predicate SameBelow(a: Store, b: Store, key: Key, readTs: Ts) {
    forall ts: Ts | ts <= readTs :: SameAt(a, b, Version(key, ts))
  }

  /** A transaction that holds the key and would commit below the snapshot has committed nowhere. */
  ghost predicate Quiet(w: World, s: Store, key: Key, readTs: Ts) {
    key in s.locks && s.locks[key].start in w.txns && w.txns[s.locks[key].start].commitTs <= readTs
    ==> NoCommit(s, s.locks[key].start)
  }

  lemma QuietStep(w: World, s: Store, e: Edit, key: Key, readTs: Ts)
    requires Distinct(w) && Sound(w, s) && Quiet(w, s, key, readTs)
    requires Enabled(w, s, e) && Obeys(w, s, e, SnapshotAt(readTs))
    ensures Quiet(w, Apply(s, e), key, readTs)
  {
  }

  lemma SameBelowStep(w: World, s: Store, e: Edit, key: Key, readTs: Ts)
    requires Distinct(w) && Sound(w, s) && Quiet(w, s, key, readTs)
    requires Enabled(w, s, e) && Obeys(w, s, e, SnapshotAt(readTs))
    ensures SameBelow(s, Apply(s, e), key, readTs)
  {
    hide Distinct, Sound, NoCommit;
    forall ts: Ts | ts <= readTs ensures SameAt(s, Apply(s, e), Version(key, ts)) {
      var v := Version(key, ts);
      if v in s.writes {
        RecordKnown(w, s, v);
        if e.Lay? { PairDistinct(w, e.start, e.start); }
        else if !e.Extend? { PairDistinct(w, e.start, s.writes[v].start); }
      }
    }
  }

  lemma {:induction false} SnapshotRun(w: World, s: Store, es: seq<Edit>, key: Key, readTs: Ts)
    requires Distinct(w) && Sound(w, s) && Quiet(w, s, key, readTs)
    requires Legal(w, s, es, SnapshotAt(readTs))
    ensures SameBelow(s, Run(s, es), key, readTs) && Quiet(w, Run(s, es), key, readTs)
    decreases |es|
  {
    if es != [] {
      SoundStep(w, s, es[0]);
      QuietStep(w, s, es[0], key, readTs);
      SameBelowStep(w, s, es[0], key, readTs);
      SnapshotRun(w, Apply(s, es[0]), es[1..], key, readTs);
    }
  }

  /** Stores that agree below the snapshot answer the same value. */
  lemma SameRead(w: World, a: Store, b: Store, key: Key, readTs: Ts)
    requires Separate(w.keys) && key in w.keys && Sound(w, a) && Sound(w, b)
    requires SameBelow(a, b, key, readTs)
    ensures ReadVersion(a, key, readTs) == ReadVersion(b, key, readTs)
  {
    hide ReadVersion, Separate;
    assert KeysWithin(a.writes, w.keys) && KeysWithin(b.writes, w.keys) by {
      forall v | v in a.writes ensures v.key in w.keys { RecordKnown(w, a, v); }
      forall v | v in b.writes ensures v.key in w.keys { RecordKnown(w, b, v); }
    }
    hide Sound;
    ReadIsNewestCommit(a, w.keys, key, readTs);
    ReadIsNewestCommit(b, w.keys, key, readTs);
    forall ts: Ts ensures NewestCommit(a.writes, key, readTs, ts) <==> NewestCommit(b.writes, key, readTs, ts) {
      assert forall t: Ts | t <= readTs :: SameAt(a, b, Version(key, t));
    }
    if ts: Ts :| NewestCommit(a.writes, key, readTs, ts) {
      assert SameAt(a, b, Version(key, ts));
    }
  }
}
