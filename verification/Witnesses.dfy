/**
 Concrete runs from the empty store: one that keeps every rule, and for each rule runs on which the
 guarantee fails once the rule is dropped.
 */
module Witnesses {
  import opened Bytes
  import opened Wrappers
  import opened KeyEncoder
  import opened Records
  import opened Store
  import opened Txn
  import opened Protocol
  import opened Runs
  import opened Resolver
  import opened Batch
  import opened Calls
  import opened Theorems
  import opened Limits
  import opened Gc
  import opened GcRuns
  import opened RangeScan
  import Answers

  const A: Key := [1]
  const B: Key := [2]

  /** FIRST starts at one millisecond with primary A, SECOND at two with primary B, THIRD, with primary
      A again, after both have committed. */
  const FIRST: Ts := 0x1_0000
  const SECOND: Ts := 0x2_0000
  const FIRST_COMMIT: Ts := 0x4_0000
  const SECOND_COMMIT: Ts := 0x5_0000
  const THIRD: Ts := 0x6_0000
  const W: World := World({A, B}, map[FIRST := Plan(A, FIRST_COMMIT), SECOND := Plan(B, SECOND_COMMIT),
                                      THIRD := Plan(A, 0x7_0000)])

  lemma WorldIsOk()
    ensures WorldOk(W) && Ready(W, EMPTY)
  {
    assert A[..1][0] == 1 && B[..1][0] == 2;
  }

  /** A clock that shows the same time all through a call. */
  function At(now: u64): Readings {
    Readings(now, now)
  }

  function Still(now: u64): Clock {
    (k: Key) => At(now)
  }

  // ---------- Calls that commit one batch ----------

  /** The call commits the one batch, and the store stays sound. */
  ghost predicate Step(s: Store, c: Call, e: Edit) {
    Ready(W, s) && Enabled(W, s, e) && Edits(s, c) == [e]
  }

  lemma AfterStep(s: Store, cs: seq<Call>, e: Edit)
    requires cs != [] && Step(s, cs[0], e)
    ensures Ready(W, Apply(s, e)) && After(s, cs) == After(Apply(s, e), cs[1..])
  {
    hide Edits, Apply, Enabled;
    RunOne(s, e);
    SoundStep(W, s, e);
  }

  lemma Lays(s: Store, m: Mutation, t: Ts, p: Key, ttl: u64, now: u64)
    requires Ready(W, s) && m.key in W.keys && p in W.keys && t in W.txns && AllBelow(s, m.key, t)
    requires m.key !in s.locks && !HasRecord(W, s, m.key, t)
    ensures Step(s, PrewriteCall([m], t, p, ttl, Still(now)), Lay(m, t, p, ttl))
  {
    hide Conflict, Run, Ready;
    ConflictScan(W, s, m.key, t);
    var e := Lay(m, t, p, ttl);
    RunNothing(s);
    assert [m][1..] == [] && [] + [e] == [e] && [e] + [] == [e];
    assert PrewriteKey(s, m, t, p, ttl, Still(now)(m.key)) == Outcome(Accepted, [e]);
    assert Prewrite(Run(s, [e]), [], t, p, ttl, Still(now)) == Outcome(Accepted, []);
  }

  lemma Seals(s: Store, k: Key, t: Ts)
    requires Ready(W, s) && s.LockedBy(k, t) && t in W.txns && s.locks[k].op != Rollback
    ensures var e := Seal(k, t, W.txns[t].commitTs, s.locks[k].op);
            && Step(s, CommitCall([k], t, W.txns[t].commitTs), e)
            && Step(s, BatchCommitCall([k], t, W.txns[t].commitTs), e)
  {
    hide Ready, Apply;
    var c := W.txns[t].commitTs;
    var e := Seal(k, t, c, s.locks[k].op);
    CommitIsBatch(s, k, t, c);
    assert [k][1..] == [] && BatchCommit(s, [], t, c) == [] && BatchCommit(s, [k], t, c) == [e] + [];
  }

  lemma RollsBack(s: Store, k: Key, t: Ts)
    requires Ready(W, s) && k in W.keys && t in W.txns && (k in s.locks ==> s.locks[k].start == t)
    ensures Step(s, RollbackCall([k], t), RollbackKey(s, k, t))
  {
    hide Ready;
    Calls.OneRollback(s, k, t);
  }

  lemma Resolves(s: Store, key: Key, now: u64, e: Edit)
    requires Ready(W, s) && key in s.locks && s.locks[key].primary in W.keys && Enabled(W, s, e)
    requires Decide(W, s, key, s.locks[key], At(now)).edits == [e]
    ensures Step(s, ResolveCall(key, At(now)), e)
  {
    hide Resolve, Decide, Ready, Run, Apply, Enabled;
    ResolveDecides(W, s, key, s.locks[key], At(now));
  }

  lemma Beats(s: Store, key: Key, t: Ts, ttl: u64)
    requires Ready(W, s) && s.LockedBy(key, t)
    ensures Step(s, HeartbeatCall(key, t, ttl), Extend(key, ttl))
  {
    hide Ready;
  }

  // ---------- The runs ----------

  function LayA(ttl: u64): Call {
    PrewriteCall([PutValue(A, [7])], FIRST, A, ttl, Still(1))
  }

  function LayB(m: Mutation, ttl: u64): Call {
    PrewriteCall([m], FIRST, A, ttl, Still(1))
  }

  const PUT_B: Mutation := PutValue(B, [8])
  const COMMIT_A: Call := CommitCall([A], FIRST, FIRST_COMMIT)
  const COMMIT_B: Call := CommitCall([B], FIRST, FIRST_COMMIT)
  const SEAL_A: Edit := Seal(A, FIRST, FIRST_COMMIT, Put)
  const SEAL_B: Edit := Seal(B, FIRST, FIRST_COMMIT, Put)

  function LaidA(ttl: u64): Store {
    Apply(EMPTY, Lay(PutValue(A, [7]), FIRST, A, ttl))
  }

  /** The store after FIRST has laid its value on A and m on B. */
  function Laid(m: Mutation, ttl: u64): Store {
    Apply(LaidA(ttl), Lay(m, FIRST, A, ttl))
  }

  lemma LaysA(ttl: u64)
    ensures Step(EMPTY, LayA(ttl), Lay(PutValue(A, [7]), FIRST, A, ttl)) && Ready(W, LaidA(ttl))
  {
    hide Step;
    WorldIsOk();
    Lays(EMPTY, PutValue(A, [7]), FIRST, A, ttl, 1);
    AfterStep(EMPTY, [LayA(ttl)], Lay(PutValue(A, [7]), FIRST, A, ttl));
  }

  lemma LaysB(m: Mutation, ttl: u64)
    requires m.key == B
    ensures Step(LaidA(ttl), LayB(m, ttl), Lay(m, FIRST, A, ttl)) && Ready(W, Laid(m, ttl))
    ensures var s := Laid(m, ttl);
            && s.writes == map[] && s.locks.Keys == {A, B}
            && s.locks[A] == Lock(A, FIRST, ttl, Put) && s.locks[B] == Lock(A, FIRST, ttl, m.Op())
            && s.data == (map[Version(A, FIRST) := [7]]
                          + if m.PutValue? then map[Version(B, FIRST) := m.value] else map[])
  {
    hide Step, Ready;
    LaysA(ttl);
    assert A[0] != B[0];
    Lays(LaidA(ttl), m, FIRST, A, ttl, 1);
    AfterStep(LaidA(ttl), [LayB(m, ttl)], Lay(m, FIRST, A, ttl));
  }

  /** The first two calls of every run below. */
  lemma AfterLaid(cs: seq<Call>, m: Mutation, ttl: u64)
    requires |cs| >= 2 && cs[0] == LayA(ttl) && cs[1] == LayB(m, ttl) && m.key == B
    ensures After(EMPTY, cs) == After(Laid(m, ttl), cs[2..])
  {
    hide Step, Ready, Apply;
    LaysA(ttl);
    LaysB(m, ttl);
    AfterStep(EMPTY, cs, Lay(PutValue(A, [7]), FIRST, A, ttl));
    AfterStep(LaidA(ttl), cs[1..], Lay(m, FIRST, A, ttl));
    assert cs[1..][1..] == cs[2..];
  }

  lemma AfterNone(s: Store)
    ensures After(s, []) == s
  {
  }

  /** A run that goes on from there with two more calls. */
  lemma AfterFour(cs: seq<Call>, m: Mutation, ttl: u64, e1: Edit, e2: Edit)
    requires |cs| == 4 && cs[0] == LayA(ttl) && cs[1] == LayB(m, ttl) && m.key == B
    requires Step(Laid(m, ttl), cs[2], e1) && Step(Apply(Laid(m, ttl), e1), cs[3], e2)
    ensures After(EMPTY, cs) == Apply(Apply(Laid(m, ttl), e1), e2)
  {
    hide Step, After, Laid, Apply, Ready;
    AfterLaid(cs, m, ttl);
    AfterStep(Laid(m, ttl), cs[2..], e1);
    AfterStep(Apply(Laid(m, ttl), e1), cs[2..][1..], e2);
    assert cs[2..][1..][1..] == [];
    AfterNone(Apply(Apply(Laid(m, ttl), e1), e2));
  }

  // ---------- Without PrimaryFirst ----------

  /** A heartbeat extends only the primary.  A resolver then rolls the expired secondary back while
      the primary lives, and the later commit is half applied. */
  lemma ExpiredSecondaryBreaksAtomicity()
    ensures var s := After(EMPTY, [LayA(1), LayB(PUT_B, 1), HeartbeatCall(A, FIRST, 1000), ResolveCall(B, At(5)),
                                   COMMIT_A]);
            HasCommit(W, s, A, FIRST) && HasRollback(s, B, FIRST)
  {
    hide Step, Ready, After, Laid;
    var cs := [LayA(1), LayB(PUT_B, 1), HeartbeatCall(A, FIRST, 1000), ResolveCall(B, At(5)), COMMIT_A];
    assert A[0] != B[0];
    LaysB(PUT_B, 1);
    var s0 := Laid(PUT_B, 1);
    var s1 := Apply(s0, Extend(A, 1000));
    Beats(s0, A, FIRST, 1000);
    AfterStep(s0, cs[2..], Extend(A, 1000));
    AfterLaid(cs, PUT_B, 1);
    TornRun(s1, cs[2..][1..]);
  }

  lemma TornRun(s: Store, cs: seq<Call>)
    requires Ready(W, s) && s.LockedBy(A, FIRST) && s.locks[A].ttl == 1000 && s.locks[A].op == Put && s.writes == map[]
    requires s.LockedBy(B, FIRST) && s.locks[B].ttl == 1 && s.locks[B].primary == A
    requires cs == [ResolveCall(B, At(5)), COMMIT_A]
    ensures HasCommit(W, After(s, cs), A, FIRST) && HasRollback(After(s, cs), B, FIRST)
  {
    hide Step, Ready, After;
    assert A[0] != B[0];
    var s' := Apply(s, Abort(B, FIRST));
    Resolves(s, B, 5, Abort(B, FIRST));
    AfterStep(s, cs, Abort(B, FIRST));
    Seals(s', A, FIRST);
    AfterStep(s', cs[1..], SEAL_A);
    AfterNone(Apply(s', SEAL_A));
    assert cs[1..][1..] == [];
  }

  /** A client that rolls back after its commit leaves the primary both committed and rolled back. */
  lemma RollbackAfterCommitBreaksAtomicity()
    ensures var s := After(EMPTY, [LayA(1), LayB(PUT_B, 1), COMMIT_A, RollbackCall([A], FIRST)]);
            HasCommit(W, s, A, FIRST) && HasRollback(s, A, FIRST)
  {
    hide Step, Ready, After, Laid;
    assert A[0] != B[0];
    LaysB(PUT_B, 1);
    var s := Laid(PUT_B, 1);
    Seals(s, A, FIRST);
    AfterStep(s, [COMMIT_A], SEAL_A);
    RollsBack(Apply(s, SEAL_A), A, FIRST);
    AfterFour([LayA(1), LayB(PUT_B, 1), COMMIT_A, RollbackCall([A], FIRST)], PUT_B, 1, SEAL_A, Mark(A, FIRST));
  }

  /** A commit does not check that its first key is the primary: one key commits, and the primary can
      still be rolled back. */
  lemma CommitWithoutPrimaryBreaksAtomicity()
    ensures var s := After(EMPTY, [LayA(1), LayB(PUT_B, 1), COMMIT_B, RollbackCall([A], FIRST)]);
            HasCommit(W, s, B, FIRST) && HasRollback(s, A, FIRST)
  {
    hide Step, Ready, After, Laid;
    assert A[0] != B[0];
    LaysB(PUT_B, 1);
    var s := Laid(PUT_B, 1);
    Seals(s, B, FIRST);
    AfterStep(s, [COMMIT_B], SEAL_B);
    RollsBack(Apply(s, SEAL_B), A, FIRST);
    AfterFour([LayA(1), LayB(PUT_B, 1), COMMIT_B, RollbackCall([A], FIRST)], PUT_B, 1, SEAL_B, Abort(A, FIRST));
  }

  /** A batched commit does not need the primary's lock: after the primary has expired and been rolled
      back, the secondary still commits. */
  lemma BatchCommitBreaksAtomicity()
    ensures var s := After(EMPTY, [LayA(1), LayB(PUT_B, 1), StatusCall(A, FIRST, 5),
                                   BatchCommitCall([A, B], FIRST, FIRST_COMMIT)]);
            HasRollback(s, A, FIRST) && HasCommit(W, s, B, FIRST)
  {
    hide Step, Ready, After, Laid;
    assert A[0] != B[0];
    LaysB(PUT_B, 1);
    var s := Laid(PUT_B, 1);
    ChecksExpired(s, A, FIRST, 5);
    AfterStep(s, [StatusCall(A, FIRST, 5)], Abort(A, FIRST));
    SealsSecond(Apply(s, Abort(A, FIRST)));
    AfterFour([LayA(1), LayB(PUT_B, 1), StatusCall(A, FIRST, 5), BatchCommitCall([A, B], FIRST, FIRST_COMMIT)],
              PUT_B, 1, Abort(A, FIRST), SEAL_B);
  }

  lemma ChecksExpired(s: Store, k: Key, t: Ts, now: u64)
    requires Ready(W, s) && k in W.keys && s.LockedBy(k, t) && t in W.txns && Expired(now, t, s.locks[k].ttl)
    ensures Step(s, StatusCall(k, t, now), Abort(k, t))
  {
    hide Lookup, Separate, Distinct, Sound;
    LockKnown(W, s, k);
    StatusScan(W, s, k, t);
  }

  lemma SealsSecond(s: Store)
    requires Ready(W, s) && !s.LockedBy(A, FIRST) && s.LockedBy(B, FIRST) && s.locks[B].op == Put
    ensures Step(s, BatchCommitCall([A, B], FIRST, FIRST_COMMIT), SEAL_B)
  {
    hide Ready;
    assert [A, B][1..] == [B] && [B][1..] == [];
    assert BatchCommit(s, [], FIRST, FIRST_COMMIT) == [] && BatchCommit(s, [B], FIRST, FIRST_COMMIT) == [SEAL_B] + [];
    assert BatchCommit(s, [A, B], FIRST, FIRST_COMMIT) == [] + BatchCommit(s, [B], FIRST, FIRST_COMMIT);
  }

  /** A secondary prewritten before its primary is an orphan: the status check answers RolledBack
      without any record, a resolver acts on it, and the primary can still commit. */
  lemma SecondaryFirstBreaksAtomicity()
    ensures var s := After(EMPTY, [LayB(PUT_B, 1)]);
            && s.LockedBy(B, FIRST) && s.locks[B].primary == A && !Touched(W, s, A, FIRST)
            && CheckStatus(s, A, FIRST, 1) == Outcome(RolledBack, [])
    ensures var s := After(EMPTY, [LayB(PUT_B, 1), ResolveCall(B, At(1)), LayA(1), COMMIT_A]);
            HasRollback(s, B, FIRST) && HasCommit(W, s, A, FIRST)
  {
    hide Step, After, Lookup, Ready;
    assert A[0] != B[0];
    WorldIsOk();
    var b, a := Lay(PUT_B, FIRST, A, 1), Lay(PutValue(A, [7]), FIRST, A, 1);
    var s1 := Apply(EMPTY, b);
    Lays(EMPTY, PUT_B, FIRST, A, 1, 1);
    AfterStep(EMPTY, [LayB(PUT_B, 1)], b);
    AfterNone(s1);
    assert [LayB(PUT_B, 1)][1..] == [];
    StatusScan(W, s1, A, FIRST);
    var cs := [LayB(PUT_B, 1), ResolveCall(B, At(1)), LayA(1), COMMIT_A];
    AfterStep(EMPTY, cs, b);
    Resolves(s1, B, 1, Abort(B, FIRST));
    AfterStep(s1, cs[1..], Abort(B, FIRST));
    OrphanCommits(Apply(s1, Abort(B, FIRST)), cs[1..][1..]);
  }

  lemma OrphanCommits(s: Store, cs: seq<Call>)
    requires Ready(W, s) && s.locks == map[] && s.writes.Keys == {Version(B, FIRST)} && HasRollback(s, B, FIRST)
    requires cs == [LayA(1), COMMIT_A]
    ensures HasRollback(After(s, cs), B, FIRST) && HasCommit(W, After(s, cs), A, FIRST)
  {
    hide Step, After, Lookup, Ready;
    assert A[0] != B[0];
    var a := Lay(PutValue(A, [7]), FIRST, A, 1);
    Lays(s, PutValue(A, [7]), FIRST, A, 1, 1);
    AfterStep(s, cs, a);
    Seals(Apply(s, a), A, FIRST);
    AfterStep(Apply(s, a), cs[1..], SEAL_A);
    AfterNone(Apply(Apply(s, a), SEAL_A));
    assert cs[1..][1..] == [];
  }

  // ---------- Without FreshLocks ----------

  const PUT_AGAIN: Mutation := PutValue(B, [9])
  const LAY_AGAIN: Call := PrewriteCall([PUT_AGAIN], SECOND, B, 1000, Still(2))
  const COMMIT_AGAIN: Call := CommitCall([B], SECOND, SECOND_COMMIT)

  /** FIRST has committed its primary A; B still carries its lock. */
  function HalfCommitted(m: Mutation): Store {
    Apply(Laid(m, 1000), SEAL_A)
  }

  lemma HalfCommits(m: Mutation)
    requires m.key == B
    ensures Step(Laid(m, 1000), COMMIT_A, SEAL_A) && Ready(W, HalfCommitted(m))
    ensures var s := HalfCommitted(m);
            && s.locks == map[B := Lock(A, FIRST, 1000, m.Op())]
            && s.writes == map[Version(A, FIRST_COMMIT) := WriteRecord(FIRST, Put)] && s.data == Laid(m, 1000).data
  {
    hide Step, Ready, Laid;
    assert A[0] != B[0];
    LaysB(m, 1000);
    Seals(Laid(m, 1000), A, FIRST);
    AfterStep(Laid(m, 1000), [COMMIT_A], SEAL_A);
  }

  /** A prewrite that finds a committed transaction's lock rolls it forward and lays its own. */
  lemma RollsForward(s: Store)
    requires Ready(W, s) && s.locks == map[B := Lock(A, FIRST, 1000, Put)]
    requires s.writes == map[Version(A, FIRST_COMMIT) := WriteRecord(FIRST, Put)]
    ensures Run(s, Edits(s, LAY_AGAIN)) == Apply(Apply(s, SEAL_B), Lay(PUT_AGAIN, SECOND, B, 1000))
  {
    hide Conflict, Resolve, Ready, Apply, Run;
    assert A[0] != B[0];
    var lay := Lay(PUT_AGAIN, SECOND, B, 1000);
    ConflictScan(W, s, B, SECOND);
    ResolveDecides(W, s, B, s.locks[B], At(2));
    assert Clear(s, B, SECOND, At(2)).edits == [SEAL_B];
    ClearUnlocks(s, B, SECOND, At(2));
    assert B in {B};
    RunOne(s, SEAL_B);
    RunOne(Apply(s, SEAL_B), lay);
    RunConcat(s, [SEAL_B], [lay]);
    var o := PrewriteKey(s, PUT_AGAIN, SECOND, B, 1000, At(2));
    assert o == Outcome(Accepted, [SEAL_B] + [lay]);
    OnePrewrite(s, PUT_AGAIN, SECOND, B, 1000, Still(2));
  }

  lemma OnePrewrite(s: Store, m: Mutation, t: Ts, p: Key, ttl: u64, clock: Clock)
    requires PrewriteKey(s, m, t, p, ttl, clock(m.key)).result.Accepted?
    ensures Run(s, Edits(s, PrewriteCall([m], t, p, ttl, clock)))
            == Run(s, PrewriteKey(s, m, t, p, ttl, clock(m.key)).edits)
  {
    hide PrewriteKey, Run;
    var s' := Run(s, PrewriteKey(s, m, t, p, ttl, clock(m.key)).edits);
    PrewriteUnfolds(s, [m], t, p, ttl, clock);
    assert [m][1..] == [] && Prewrite(s', [], t, p, ttl, clock) == Outcome(Accepted, []);
    RunNothing(s');
  }

  /** SECOND reads before FIRST's commit, yet its prewrite rolls FIRST's lock forward past its own
      start, is accepted and commits: the later of the two commits on B started before the earlier. */
  lemma RollForwardLosesUpdate()
    ensures var s := After(EMPTY, [LayA(1000), LayB(PUT_B, 1000), COMMIT_A, LAY_AGAIN, COMMIT_AGAIN]);
            && CommittedAt(s, Version(B, FIRST_COMMIT)) && CommittedAt(s, Version(B, SECOND_COMMIT))
            && FIRST_COMMIT < SECOND_COMMIT && FIRST_COMMIT >= s.writes[Version(B, SECOND_COMMIT)].start
  {
    hide Step, Ready, After, Laid, HalfCommitted, Edits, Run, Apply;
    var cs := [LayA(1000), LayB(PUT_B, 1000), COMMIT_A, LAY_AGAIN, COMMIT_AGAIN];
    HalfCommits(PUT_B);
    HalfCommittedIs(PUT_B);
    AfterLaid(cs, PUT_B, 1000);
    AfterStep(Laid(PUT_B, 1000), cs[2..], SEAL_A);
    LosesRun(HalfCommitted(PUT_B), cs[2..][1..]);
  }

  lemma LosesRun(s: Store, cs: seq<Call>)
    requires Ready(W, s) && s.locks == map[B := Lock(A, FIRST, 1000, Put)]
    requires s.writes == map[Version(A, FIRST_COMMIT) := WriteRecord(FIRST, Put)]
    requires cs == [LAY_AGAIN, COMMIT_AGAIN]
    ensures var s' := After(s, cs);
            && CommittedAt(s', Version(B, FIRST_COMMIT)) && CommittedAt(s', Version(B, SECOND_COMMIT))
            && s'.writes[Version(B, SECOND_COMMIT)].start == SECOND
  {
    hide Step, Ready, Edits, Run, After;
    assert A[0] != B[0];
    var lay, seal := Lay(PUT_AGAIN, SECOND, B, 1000), Seal(B, SECOND, SECOND_COMMIT, Put);
    var s1 := Apply(s, SEAL_B);
    var s2 := Apply(s1, lay);
    RollsForward(s);
    AfterCall(s, cs);
    ReadyStep(s, SEAL_B);
    ReadyStep(s1, lay);
    Seals(s2, B, SECOND);
    AfterStep(s2, cs[1..], seal);
    assert cs[1..][1..] == [];
    AfterNone(Apply(s2, seal));
    assert After(s, cs) == Apply(s2, seal);
    BothStored(s);
  }

  lemma BothStored(s: Store)
    ensures var s1 := Apply(Apply(s, SEAL_B), Lay(PUT_AGAIN, SECOND, B, 1000));
            var s' := Apply(s1, Seal(B, SECOND, SECOND_COMMIT, Put));
            && CommittedAt(s', Version(B, FIRST_COMMIT)) && CommittedAt(s', Version(B, SECOND_COMMIT))
            && s'.writes[Version(B, SECOND_COMMIT)].start == SECOND
  {
    assert Version(B, FIRST_COMMIT) != Version(B, SECOND_COMMIT);
  }

  lemma AfterCall(s: Store, cs: seq<Call>)
    requires cs != []
    ensures After(s, cs) == After(Run(s, Edits(s, cs[0])), cs[1..])
  {
  }

  lemma ReadyStep(s: Store, e: Edit)
    requires Ready(W, s) && Enabled(W, s, e)
    ensures Ready(W, Apply(s, e))
  {
    SoundStep(W, s, e);
  }

  // ---------- Without StoredOps ----------

  /** FIRST deletes B.  A reader that finds B locked commits it as a Put, whose value does not exist. */
  lemma InventedPutCorruptsRead()
    ensures var s := After(EMPTY, [LayA(1000), LayB(DeleteKey(B), 1000), COMMIT_A]);
            ValuesPresent(s) && Get(s, B, FIRST_COMMIT, At(2)).result == Err(Mvcc(CorruptedState))
  {
    hide Step, Ready, After, Laid, HalfCommitted, Get, ValuesPresent;
    var cs := [LayA(1000), LayB(DeleteKey(B), 1000), COMMIT_A];
    LaysB(DeleteKey(B), 1000);
    HalfCommits(DeleteKey(B));
    HalfCommittedIs(DeleteKey(B));
    AfterLaid(cs, DeleteKey(B), 1000);
    AfterStep(Laid(DeleteKey(B), 1000), cs[2..], SEAL_A);
    assert cs[2..][1..] == [];
    AfterNone(HalfCommitted(DeleteKey(B)));
    InventedOn(HalfCommitted(DeleteKey(B)));
  }

  lemma InventedOn(s: Store)
    requires Ready(W, s) && s.locks == map[B := Lock(A, FIRST, 1000, Delete)]
    requires s.writes == map[Version(A, FIRST_COMMIT) := WriteRecord(FIRST, Put)]
    requires s.data.Keys == {Version(A, FIRST)}
    ensures ValuesPresent(s) && Get(s, B, FIRST_COMMIT, At(2)).result == Err(Mvcc(CorruptedState))
  {
    hide Get, Ready;
    assert A[0] != B[0];
    assert forall v | CommittedAt(s, v) :: v == Version(A, FIRST_COMMIT);
    GetCorruptsExactly(W, s, B, FIRST_COMMIT, At(2));
  }

  // ---------- Scans ----------

  /** FIRST writes A and B and has committed A.  At its commit timestamp a get of B answers the value, while
      a scan of everything finds A alone: no record leads it to B. */
  lemma ScanMissesLockedKey()
    ensures var s := After(EMPTY, [LayA(1000), LayB(PUT_B, 1000), COMMIT_A]);
            && Get(s, B, FIRST_COMMIT, At(2)).result == Ok(Some([8]))
            && ScanRange(s, [], [], 0, FIRST_COMMIT, Still(2)) == Outcome(Ok([(A, [7])]), [])
  {
    hide Step, Ready, After, Laid, HalfCommitted, Get, ScanRange;
    var cs := [LayA(1000), LayB(PUT_B, 1000), COMMIT_A];
    LaysB(PUT_B, 1000);
    HalfCommits(PUT_B);
    HalfCommittedIs(PUT_B);
    AfterLaid(cs, PUT_B, 1000);
    AfterStep(Laid(PUT_B, 1000), cs[2..], SEAL_A);
    assert cs[2..][1..] == [];
    AfterNone(HalfCommitted(PUT_B));
    GetFindsB(HalfCommitted(PUT_B));
    ScanFindsA(HalfCommitted(PUT_B));
  }

  lemma GetFindsB(s: Store)
    requires Ready(W, s) && s.locks == map[B := Lock(A, FIRST, 1000, Put)]
    requires s.writes == map[Version(A, FIRST_COMMIT) := WriteRecord(FIRST, Put)]
    requires Version(B, FIRST) in s.data && s.data[Version(B, FIRST)] == [8]
    ensures Get(s, B, FIRST_COMMIT, At(2)).result == Ok(Some([8]))
  {
    hide Get, Ready, Run;
    var s' := Run(s, Get(s, B, FIRST_COMMIT, At(2)).edits);
    Answers.GetExactly(W, s, B, FIRST_COMMIT, At(2));
    assert s' == Answers.CommittedOn(s, B, FIRST, FIRST_COMMIT, Put);
    assert NewestCommit(s'.writes, B, FIRST_COMMIT, FIRST_COMMIT);
  }

  lemma ScanFindsA(s: Store)
    requires Ready(W, s) && A !in s.locks
    requires s.writes == map[Version(A, FIRST_COMMIT) := WriteRecord(FIRST, Put)]
    requires Version(A, FIRST) in s.data && s.data[Version(A, FIRST)] == [7]
    ensures ScanRange(s, [], [], 0, FIRST_COMMIT, Still(2)) == Outcome(Ok([(A, [7])]), [])
  {
    hide ScanRange, Read, Sound, Distinct, Separate;
    SoundWithin(W, s);
    ReadsA(s);
    ScanIsPage(s, W.keys, [], [], 0, FIRST_COMMIT, Still(2));
    OnlyA(s, ScanRange(s, [], [], 0, FIRST_COMMIT, Still(2)).result.value);
  }

  lemma ReadsA(s: Store)
    requires Ready(W, s) && A !in s.locks
    requires s.writes == map[Version(A, FIRST_COMMIT) := WriteRecord(FIRST, Put)]
    requires Version(A, FIRST) in s.data && s.data[Version(A, FIRST)] == [7]
    ensures Read(s, A, FIRST_COMMIT) == Ok(Some([7]))
    ensures forall key, value | Read(s, key, FIRST_COMMIT) == Ok(Some(value)) :: key == A
  {
    hide Lookup, Sound, Distinct, Separate;
    FoundAtItself(W, s, A, FIRST_COMMIT);
  }

  lemma OnlyA(s: Store, r: seq<Pair>)
    requires IsPage(s, r, [], [], 0, FIRST_COMMIT) && Read(s, A, FIRST_COMMIT) == Ok(Some([7]))
    requires forall key, value | Read(s, key, FIRST_COMMIT) == Ok(Some(value)) :: key == A
    ensures r == [(A, [7])]
  {
    hide Read;
    LessIrreflexive(A);
    assert |r| > 1 ==> Less(r[0].0, r[1].0);
    assert HoldsOrEnds(r, 0, A);
    var i :| 0 <= i < |r| && r[i].0 == A;
    forall j | 0 <= j < |r| ensures r[j] == (A, [7]) { assert Read(s, r[j].0, FIRST_COMMIT) == Ok(Some(r[j].1)); }
  }

  // ---------- With collections ----------

  lemma AfterEvent(s: Store, es: seq<Event>, e: Edit)
    requires es != [] && es[0].Do? && Step(s, es[0].call, e)
    ensures Ready(W, Apply(s, e)) && AfterEvents(s, es) == AfterEvents(Apply(s, e), es[1..])
  {
    hide Edits, Apply, Enabled;
    RunOne(s, e);
    SoundStep(W, s, e);
  }

  lemma AfterCollect(s: Store, safePoint: Ts)
    ensures AfterEvents(s, [Collect(safePoint)]) == AfterGc(s, safePoint)
  {
    hide AfterGc;
    assert [Collect(safePoint)][1..] == [];
  }

  /** The store after FIRST has laid and committed its value on A. */
  function CommittedA(): Store {
    Apply(LaidA(1), SEAL_A)
  }

  lemma CommitsA(es: seq<Event>)
    requires |es| >= 2 && es[0] == Do(LayA(1)) && es[1] == Do(COMMIT_A)
    ensures AfterEvents(EMPTY, es) == AfterEvents(CommittedA(), es[2..]) && Ready(W, CommittedA())
  {
    hide Step, Ready, AfterEvents;
    LaysA(1);
    Seals(LaidA(1), A, FIRST);
    AfterEvent(EMPTY, es, Lay(PutValue(A, [7]), FIRST, A, 1));
    AfterEvent(LaidA(1), es[1..], SEAL_A);
    assert es[1..][1..] == es[2..];
  }

  lemma RollsBackThen(es: seq<Event>, t: Ts, safePoint: Ts)
    requires t in W.txns
    requires es == [Do(LayA(1)), Do(COMMIT_A), Do(RollbackCall([A], t)), Collect(safePoint)]
    ensures var s := Apply(CommittedA(), Mark(A, t));
            AfterEvents(EMPTY, es[..3]) == s && AfterEvents(EMPTY, es) == AfterGc(s, safePoint)
  {
    hide Step, Ready, AfterEvents, AfterGc;
    var s := Apply(CommittedA(), Mark(A, t));
    CommitsA(es);
    CommitsA(es[..3]);
    RollsBack(CommittedA(), A, t);
    assert es[..3][2..] == [Do(RollbackCall([A], t))];
    AfterEvent(CommittedA(), es[2..], Mark(A, t));
    AfterEvent(CommittedA(), es[..3][2..], Mark(A, t));
    assert es[2..][1..] == [Collect(safePoint)] && es[..3][2..][1..] == [];
    AfterCollect(s, safePoint);
    AfterNoEvents(s);
  }

  lemma AfterNoEvents(s: Store)
    ensures AfterEvents(s, []) == s
  {
  }

  /** A client rolls back after its commit.  The collection just above the commit takes the rollback
      record, and with it the value of the commit it keeps: the read answers CorruptedState. */
  lemma CollectionCorruptsRead()
    ensures var es := [Do(LayA(1)), Do(COMMIT_A), Do(RollbackCall([A], FIRST)), Collect(FIRST_COMMIT + 1)];
            && ReadVersion(AfterEvents(EMPTY, es[..3]), A, FIRST_COMMIT) == Ok(Some([7]))
            && ReadVersion(AfterEvents(EMPTY, es), A, FIRST_COMMIT) == Err(CorruptedState)
  {
    hide AfterEvents, AfterGc, ReadVersion;
    var es := [Do(LayA(1)), Do(COMMIT_A), Do(RollbackCall([A], FIRST)), Collect(FIRST_COMMIT + 1)];
    RollsBackThen(es, FIRST, FIRST_COMMIT + 1);
    GcLosesValueUnderCommit(A, FIRST, FIRST_COMMIT, [7]);
    assert Apply(CommittedA(), Mark(A, FIRST))
           == Store(map[Version(A, FIRST) := [7]], map[],
                    map[Version(A, FIRST_COMMIT) := WriteRecord(FIRST, Put),
                        Version(A, FIRST) := WriteRecord(FIRST, Rollback)]);
  }

  /** A later transaction is rolled back.  The collection just above keeps that rollback as the newest
      record and takes the value committed beneath it: the read answers nothing. */
  lemma CollectionLosesValue()
    ensures var es := [Do(LayA(1)), Do(COMMIT_A), Do(RollbackCall([A], THIRD)), Collect(THIRD + 1)];
            && ReadVersion(AfterEvents(EMPTY, es[..3]), A, THIRD) == Ok(Some([7]))
            && ReadVersion(AfterEvents(EMPTY, es), A, THIRD) == Ok(None)
  {
    hide AfterEvents, AfterGc, ReadVersion;
    var es := [Do(LayA(1)), Do(COMMIT_A), Do(RollbackCall([A], THIRD)), Collect(THIRD + 1)];
    RollsBackThen(es, THIRD, THIRD + 1);
    GcLosesValueUnderRollback(A, FIRST, FIRST_COMMIT, THIRD, [7]);
    assert Apply(CommittedA(), Mark(A, THIRD))
           == Store(map[Version(A, FIRST) := [7]], map[],
                    map[Version(A, FIRST_COMMIT) := WriteRecord(FIRST, Put),
                        Version(A, THIRD) := WriteRecord(THIRD, Rollback)]);
  }

  // ---------- Without separate keys ----------

  const AX: Key := [1, 0]
  const LAY_KEY: Call := PrewriteCall([PutValue(A, [7])], 1, A, 1000, Still(0))
  const LAY_LONGER: Call := PrewriteCall([PutValue(AX, [8])], 2, AX, 1000, Still(0))

  lemma LaysFresh(s: Store, m: Mutation, t: Ts, p: Key, ttl: u64, now: u64)
    requires m.key !in s.locks && forall ts: Ts :: Version(m.key, ts) !in s.writes
    ensures Run(s, Edits(s, PrewriteCall([m], t, p, ttl, Still(now)))) == Apply(s, Lay(m, t, p, ttl))
  {
    hide Lookup, Run, Apply;
    var e := Lay(m, t, p, ttl);
    RunNothing(s);
    RunOne(s, e);
    assert [] + [e] == [e];
    OnePrewrite(s, m, t, p, ttl, Still(now));
  }

  lemma SealsFresh(s: Store, k: Key, t: Ts, c: Ts)
    requires s.LockedBy(k, t)
    ensures Run(s, Edits(s, CommitCall([k], t, c))) == Apply(s, Seal(k, t, c, s.locks[k].op))
  {
    hide Apply, Run;
    CommitIsBatch(s, k, t, c);
    OneHeld(s, k, t, c);
  }

  /** Two transactions commit, one on a key and one on its extension.  From then on the first is
      reported rolled back, and a prewrite older than its commit passes the conflict check. */
  lemma ExtensionLosesCommit()
    ensures var s := After(EMPTY, [LAY_KEY, CommitCall([A], 1, 4), LAY_LONGER, CommitCall([AX], 2, 5)]);
            && CommittedAt(s, Version(A, 4)) && s.writes[Version(A, 4)].start == 1
            && CheckStatus(s, A, 1, 0) == Outcome(RolledBack, []) && Conflict(s, A, 3) == None
  {
    hide Lookup, After, Edits, Run;
    var cs := [LAY_KEY, CommitCall([A], 1, 4), LAY_LONGER, CommitCall([AX], 2, 5)];
    assert |A| != |AX|;
    var s1 := Apply(EMPTY, Lay(PutValue(A, [7]), 1, A, 1000));
    var s2 := Apply(s1, Seal(A, 1, 4, Put));
    var s3 := Apply(s2, Lay(PutValue(AX, [8]), 2, AX, 1000));
    var s4 := Apply(s3, Seal(AX, 2, 5, Put));
    LaysFresh(EMPTY, PutValue(A, [7]), 1, A, 1000, 0);
    SealsFresh(s1, A, 1, 4);
    LaysFresh(s2, PutValue(AX, [8]), 2, AX, 1000, 0);
    SealsFresh(s3, AX, 2, 5);
    AfterCall(EMPTY, cs);
    AfterCall(s1, cs[1..]);
    AfterCall(s2, cs[1..][1..]);
    AfterCall(s3, cs[1..][1..][1..]);
    assert cs[1..][1..][1..][1..] == [];
    AfterNone(s4);
    assert AX == A + ([0] + []) && Version(AX, 5) in s4.writes;
    ExtensionHides(s4.writes, A, [], 5, StartedAt(1));
    ExtensionHides(s4.writes, A, [], 5, Blocks(3));
  }

  // ---------- With every rule ----------

  lemma AllowedStep(s: Store, cs: seq<Call>, e: Edit, rule: Rule)
    requires cs != [] && Step(s, cs[0], e) && Permitted(W, s, cs[0], rule) && Allowed(W, Apply(s, e), cs[1..], rule)
    ensures Allowed(W, s, cs, rule)
  {
    hide Edits, Permitted;
    RunOne(s, e);
  }

  lemma AllowedNone(s: Store, rule: Rule)
    ensures Allowed(W, s, [], rule)
  {
  }

  /** Two-phase commit over two keys keeps every rule at once, and commits both. */
  lemma TwoPhaseCommitKeepsAllRules(rule: Rule)
    requires rule.SnapshotAt? ==> rule.readTs < FIRST_COMMIT
    ensures var cs := [LayA(1000), LayB(PUT_B, 1000), COMMIT_A, COMMIT_B];
            && WorldOk(W) && Allowed(W, EMPTY, cs, rule)
            && HasCommit(W, After(EMPTY, cs), A, FIRST) && HasCommit(W, After(EMPTY, cs), B, FIRST)
  {
    hide Step, Ready, After, Laid, LaidA, HalfCommitted, Permitted, Allowed, WorldOk;
    var cs := [LayA(1000), LayB(PUT_B, 1000), COMMIT_A, COMMIT_B];
    assert A[0] != B[0];
    WorldIsOk();
    LaysA(1000);
    LaysB(PUT_B, 1000);
    HalfCommits(PUT_B);
    var s := HalfCommitted(PUT_B);
    Seals(s, B, FIRST);
    assert Apply(Laid(PUT_B, 1000), SEAL_A) == s by { HalfCommittedIs(PUT_B); }
    AfterFour(cs, PUT_B, 1000, SEAL_A, SEAL_B);
    AllPermitted(rule);
    AllowedNone(Apply(s, SEAL_B), rule);
    assert cs[1..][1..] == cs[2..] && cs[2..][1..] == cs[3..] && cs[3..][1..] == [];
    AllowedStep(s, cs[3..], SEAL_B, rule);
    AllowedStep(Laid(PUT_B, 1000), cs[2..], SEAL_A, rule);
    LaidIs(PUT_B, 1000);
    AllowedStep(LaidA(1000), cs[1..], Lay(PUT_B, FIRST, A, 1000), rule);
    AllowedStep(EMPTY, cs, Lay(PutValue(A, [7]), FIRST, A, 1000), rule);
  }

  lemma HalfCommittedIs(m: Mutation)
    ensures HalfCommitted(m) == Apply(Laid(m, 1000), SEAL_A)
  {
  }

  lemma LaidIs(m: Mutation, ttl: u64)
    ensures Laid(m, ttl) == Apply(LaidA(ttl), Lay(m, FIRST, A, ttl))
    ensures LaidA(ttl) == Apply(EMPTY, Lay(PutValue(A, [7]), FIRST, A, ttl))
  {
  }

  lemma AllPermitted(rule: Rule)
    requires rule.SnapshotAt? ==> rule.readTs < FIRST_COMMIT
    ensures Permitted(W, EMPTY, LayA(1000), rule) && Permitted(W, LaidA(1000), LayB(PUT_B, 1000), rule)
    ensures Permitted(W, Laid(PUT_B, 1000), COMMIT_A, rule) && Permitted(W, HalfCommitted(PUT_B), COMMIT_B, rule)
  {
    hide Ready, Laid, HalfCommitted, Step, PrewriteKey, Prewrite, PrewritePermitted, Run, CommitHeld;
    assert A[0] != B[0];
    HalfCommits(PUT_B);
    LaysPermitted(EMPTY, PutValue(A, [7]), rule);
    LaysPermitted(LaidA(1000), PUT_B, rule);
  }

  lemma LaysPermitted(s: Store, m: Mutation, rule: Rule)
    requires m.key in W.keys && s.writes == map[] && m.key !in s.locks && (m.key == A || s.LockedBy(A, FIRST))
    ensures Permitted(W, s, PrewriteCall([m], FIRST, A, 1000, Still(1)), rule)
  {
    hide PrewriteKey, Prewrite, Run;
    assert Keys([m]) == {m.key} && [m][1..] == [];
    var o, n := PrewriteKey(s, m, FIRST, A, 1000, At(1)), |Edits(s, PrewriteCall([m], FIRST, A, 1000, Still(1)))|;
    assert LayPermitted(W, s, m.key, FIRST, A, At(1), rule);
    if n > |o.edits| {
      assert PrewritePermitted(W, Run(s, o.edits), [], FIRST, A, 1000, Still(1), n - |o.edits|, rule);
    }
  }
}
