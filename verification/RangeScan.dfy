/** Snapshot range scans (txn-coordinator/coordinator.rs). */
module RangeScan {
  import opened Bytes
  import opened Ordered
  import opened Wrappers
  import opened KeyEncoder
  import opened Records
  import opened Store
  import opened Txn

  type Pair = (Key, Value)
  type Page = Result<seq<Pair>, TxnError>

  predicate InRange(key: Key, start: Key, end: Key) {
    (start == [] || !Less(key, start)) && (end == [] || Less(key, end))
  }

  function Seek(start: Key, readTs: Ts): Bytes {
    if start == [] then [] else Encode(start, readTs)
  }

  /** The walk over the versions the iterator yields, reading each key once. */
  function Walk(s: Store, vs: seq<Version>, start: Key, end: Key, limit: u32, readTs: Ts, clock: Clock,
                last: Option<Key>, acc: seq<Pair>): Outcome<Page>
    decreases |vs|
  {
    if vs == [] then Outcome(Ok(acc), [])
    else
      var key := vs[0].key;
      if start != [] && Less(key, start) then Walk(s, vs[1..], start, end, limit, readTs, clock, last, acc)
      else if end != [] && !Less(key, end) then Outcome(Ok(acc), [])
      else if last == Some(key) then Walk(s, vs[1..], start, end, limit, readTs, clock, last, acc)
      else
        var o := Get(s, key, readTs, clock(key));
        match o.result
        case Err(e) => Outcome(Err(e), o.edits)
        case Ok(value) =>
          var acc' := if value.Some? then acc + [(key, value.value)] else acc;
          if value.Some? && limit > 0 && |acc'| >= limit then Outcome(Ok(acc'), o.edits)
          else
            var rest := Walk(Run(s, o.edits), vs[1..], start, end, limit, readTs, clock, Some(key), acc');
            Outcome(rest.result, o.edits + rest.edits)
  }

  function ScanRange(s: Store, start: Key, end: Key, limit: u32, readTs: Ts, clock: Clock): Outcome<Page> {
    Walk(s, Scan(s.writes, Seek(start, readTs)), start, end, limit, readTs, clock, None, [])
  }

  // ---------- What a page holds ----------

  ghost predicate KeysAscend(r: seq<Pair>) {
    forall i, j | 0 <= i < j < |r| :: Less(r[i].0, r[j].0)
  }

  /** Every pair is a key in range with the value a read of it answers. */
  ghost predicate Truthful(s: Store, r: seq<Pair>, start: Key, end: Key, readTs: Ts) {
    forall i | 0 <= i < |r| :: InRange(r[i].0, start, end) && Read(s, r[i].0, readTs) == Ok(Some(r[i].1))
  }

  ghost predicate OnPage(r: seq<Pair>, key: Key) {
    exists i :: 0 <= i < |r| && r[i].0 == key
  }

  /** A key that is missing lies beyond a full page. */
  ghost predicate HoldsOrEnds(r: seq<Pair>, limit: u32, key: Key) {
    OnPage(r, key) || (limit > 0 && |r| == limit && forall i | 0 <= i < |r| :: Less(r[i].0, key))
  }

  /** The first `limit` (all, if zero) of the keys in range that have a value, in key order. */
  ghost predicate IsPage(s: Store, r: seq<Pair>, start: Key, end: Key, limit: u32, readTs: Ts) {
    && KeysAscend(r) && Truthful(s, r, start, end, readTs) && (limit > 0 ==> |r| <= limit)
    && forall key, value | InRange(key, start, end) && Read(s, key, readTs) == Ok(Some(value)) ::
         HoldsOrEnds(r, limit, key)
  }

  ghost predicate KeyOrdered(vs: seq<Version>) {
    forall i, j | 0 <= i < j < |vs| :: Leq(vs[i].key, vs[j].key)
  }

  /** No key in range answers an error: none is locked at or below the read timestamp, no value is missing. */
  ghost predicate Readable(s: Store, vs: seq<Version>, start: Key, end: Key, readTs: Ts) {
    forall i | 0 <= i < |vs| && InRange(vs[i].key, start, end) :: Read(s, vs[i].key, readTs).Ok?
  }

  ghost predicate Behind(vs: seq<Version>, last: Option<Key>, acc: seq<Pair>) {
    && (last.None? ==> acc == [])
    && (last.Some? ==> && (forall i | 0 <= i < |vs| :: Leq(last.value, vs[i].key))
                       && (forall i | 0 <= i < |acc| :: Leq(acc[i].0, last.value)))
  }

  /** What the rest of the walk promises about the page it ends with. */
  ghost predicate Finishes(s: Store, vs: seq<Version>, start: Key, end: Key, limit: u32, readTs: Ts,
                           last: Option<Key>, acc: seq<Pair>, r: seq<Pair>) {
    && acc <= r && KeysAscend(r) && Truthful(s, r, start, end, readTs) && (limit > 0 ==> |r| <= limit)
    && forall i | 0 <= i < |vs| && InRange(vs[i].key, start, end) && last != Some(vs[i].key)
                  && Read(s, vs[i].key, readTs) != Ok(None) :: HoldsOrEnds(r, limit, vs[i].key)
  }

  ghost predicate Started(s: Store, vs: seq<Version>, start: Key, end: Key, limit: u32, readTs: Ts,
                          last: Option<Key>, acc: seq<Pair>) {
    && KeyOrdered(vs) && Readable(s, vs, start, end, readTs) && Behind(vs, last, acc)
    && KeysAscend(acc) && Truthful(s, acc, start, end, readTs) && (limit > 0 ==> |acc| < limit)
  }

  lemma {:induction false} WalkFinishes(s: Store, vs: seq<Version>, start: Key, end: Key, limit: u32, readTs: Ts,
                                        clock: Clock, last: Option<Key>, acc: seq<Pair>)
    requires Started(s, vs, start, end, limit, readTs, last, acc)
    ensures var o := Walk(s, vs, start, end, limit, readTs, clock, last, acc);
            o.edits == [] && o.result.Ok? && Finishes(s, vs, start, end, limit, readTs, last, acc, o.result.value)
    decreases |vs|
  {
    hide Read, Less;
    if vs != [] {
      var key := vs[0].key;
      assert vs == [vs[0]] + vs[1..];
      if start != [] && Less(key, start) {
        WalkFinishes(s, vs[1..], start, end, limit, readTs, clock, last, acc);
      } else if end != [] && !Less(key, end) {
        BeyondEnd(vs, end);
      } else if last == Some(key) {
        WalkFinishes(s, vs[1..], start, end, limit, readTs, clock, last, acc);
      } else {
        VisitFinishes(s, vs, start, end, limit, readTs, clock, last, acc);
      }
    }
  }

  /** Once a key is past the end, so are all later ones. */
  lemma BeyondEnd(vs: seq<Version>, end: Key)
    requires KeyOrdered(vs) && vs != [] && !Less(vs[0].key, end)
    ensures forall i | 0 <= i < |vs| :: !Less(vs[i].key, end)
  {
    forall i | 0 < i < |vs| && Less(vs[i].key, end) ensures false {
      if vs[0].key != vs[i].key { LessTransitive(vs[0].key, vs[i].key, end); }
    }
  }

  lemma {:induction false} VisitFinishes(s: Store, vs: seq<Version>, start: Key, end: Key, limit: u32, readTs: Ts,
                                         clock: Clock, last: Option<Key>, acc: seq<Pair>)
    requires vs != [] && Started(s, vs, start, end, limit, readTs, last, acc)
    requires InRange(vs[0].key, start, end) && last != Some(vs[0].key)
    ensures var o := Walk(s, vs, start, end, limit, readTs, clock, last, acc);
            o.edits == [] && o.result.Ok? && Finishes(s, vs, start, end, limit, readTs, last, acc, o.result.value)
    decreases |vs|, 0
  {
    hide Read, Less;
    var key := vs[0].key;
    var o := Get(s, key, readTs, clock(key));
    assert o.edits == [] && Run(s, o.edits) == s && Read(s, key, readTs) == Ok(o.result.value);
    var acc' := if o.result.value.Some? then acc + [(key, o.result.value.value)] else acc;
    Appended(vs, last, acc, acc');
    if o.result.value.Some? && limit > 0 && |acc'| >= limit {
      forall i | 0 <= i < |vs| ensures HoldsOrEnds(acc', limit, vs[i].key) {
        FullPage(vs, last, acc', limit, i);
      }
    } else {
      WalkFinishes(s, vs[1..], start, end, limit, readTs, clock, Some(key), acc');
      if o.result.value.Some? {
        var r := Walk(s, vs[1..], start, end, limit, readTs, clock, Some(key), acc').result.value;
        assert r[|acc|].0 == key;
      }
    }
  }

  lemma Appended(vs: seq<Version>, last: Option<Key>, acc: seq<Pair>, acc': seq<Pair>)
    requires vs != [] && KeyOrdered(vs) && Behind(vs, last, acc) && last != Some(vs[0].key) && KeysAscend(acc)
    requires acc' == acc || exists value :: acc' == acc + [(vs[0].key, value)]
    ensures KeysAscend(acc') && Behind(vs[1..], Some(vs[0].key), acc')
  {
    forall i | 0 <= i < |acc| ensures Less(acc[i].0, vs[0].key) {
      if acc[i].0 != last.value { LessTransitive(acc[i].0, last.value, vs[0].key); }
    }
  }

  lemma FullPage(vs: seq<Version>, last: Option<Key>, acc: seq<Pair>, limit: u32, i: nat)
    requires vs != [] && KeyOrdered(vs) && i < |vs| && limit > 0 && |acc| == limit && KeysAscend(acc)
    requires acc[|acc| - 1].0 == vs[0].key
    ensures HoldsOrEnds(acc, limit, vs[i].key)
  {
    hide Less;
    if vs[i].key != vs[0].key {
      forall j | 0 <= j < |acc| ensures Less(acc[j].0, vs[i].key) {
        if j < |acc| - 1 { LessTransitive(acc[j].0, vs[0].key, vs[i].key); }
      }
    }
  }

  // ---------- From versions to keys ----------

  lemma ScanKeyOrdered(writes: Writes, keys: set<Key>, seek: Bytes)
    requires Separate(keys) && KeysWithin(writes, keys)
    ensures KeyOrdered(Scan(writes, seek))
  {
    hide Scan;
    var vs := Scan(writes, seek);
    ScanFacts(writes, seek);
    forall i, j | 0 <= i < j < |vs| ensures Leq(vs[i].key, vs[j].key) {
      assert vs[i] in vs && vs[j] in vs;
      if vs[i].key != vs[j].key { KeyOrderDecides(vs[i], vs[j]); }
    }
  }

  /** The iterator yields a version of every key in range that has a value. */
  lemma ScanReaches(s: Store, keys: set<Key>, start: Key, end: Key, readTs: Ts, key: Key) returns (i: nat)
    requires Separate(keys) && KeysWithin(s.writes, keys) && (start == [] || start in keys)
    requires InRange(key, start, end) && Read(s, key, readTs) != Ok(None) && Read(s, key, readTs).Ok?
    ensures var vs := Scan(s.writes, Seek(start, readTs)); i < |vs| && vs[i].key == key
  {
    hide Scan;
    var found := Lookup(s.writes, key, readTs, Visible(readTs));
    var v := Version(key, found.value);
    ScanFacts(s.writes, Seek(start, readTs));
    assert Leq(Seek(start, readTs), Encode(v.key, v.ts)) by { SeekExactly(keys, start, readTs, v); }
    i :| 0 <= i < |Scan(s.writes, Seek(start, readTs))| && Scan(s.writes, Seek(start, readTs))[i] == v;
  }

  /** The iterator starts at the first key in range, but past the versions of the start key above the snapshot. */
  lemma SeekExactly(keys: set<Key>, start: Key, readTs: Ts, v: Version)
    requires Separate(keys) && v.key in keys && (start == [] || start in keys)
    requires start == [] || !Less(v.key, start)
    ensures Leq(Seek(start, readTs), Encode(v.key, v.ts)) <==> (v.key == start && start != [] ==> v.ts <= readTs)
  {
    if start != [] {
      var from := Version(start, readTs);
      if v.key == start {
        NewestFirst(start, readTs, v.ts);
        NewestFirst(start, v.ts, readTs);
        if Before(v, from) {
          LessAsymmetric(Encode(v.key, v.ts), Encode(start, readTs));
          LessIrreflexive(Encode(v.key, v.ts));
        }
      } else {
        LessTotal(start, v.key);
        KeyOrderDecides(from, v);
      }
    } else {
      assert Encode(v.key, v.ts) != [];
    }
  }

  /** When no stored key in range answers an error, a scan is the page of pointwise reads, and it
      changes nothing. */
  lemma ScanIsPage(s: Store, keys: set<Key>, start: Key, end: Key, limit: u32, readTs: Ts, clock: Clock)
    requires Separate(keys) && KeysWithin(s.writes, keys) && (start == [] || start in keys)
    requires forall v | v in s.writes && InRange(v.key, start, end) :: Read(s, v.key, readTs).Ok?
    ensures var o := ScanRange(s, start, end, limit, readTs, clock);
            o.edits == [] && o.result.Ok? && IsPage(s, o.result.value, start, end, limit, readTs)
  {
    hide Read, Less, Walk, Scan;
    var vs := Scan(s.writes, Seek(start, readTs));
    ScanFacts(s.writes, Seek(start, readTs));
    ScanKeyOrdered(s.writes, keys, Seek(start, readTs));
    forall i | 0 <= i < |vs| ensures vs[i] in s.writes { assert vs[i] in vs; }
    WalkFinishes(s, vs, start, end, limit, readTs, clock, None, []);
    var r := ScanRange(s, start, end, limit, readTs, clock).result.value;
    forall key, value | InRange(key, start, end) && Read(s, key, readTs) == Ok(Some(value))
      ensures HoldsOrEnds(r, limit, key)
    {
      var i := ScanReaches(s, keys, start, end, readTs, key);
      assert HoldsOrEnds(r, limit, vs[i].key);
    }
  }

  /** There is only one page. */
  lemma {:induction false} PageAgreesAt(s: Store, a: seq<Pair>, b: seq<Pair>, start: Key, end: Key, limit: u32,
                                        readTs: Ts, i: nat)
    requires IsPage(s, a, start, end, limit, readTs) && IsPage(s, b, start, end, limit, readTs) && i < |a|
    ensures i < |b| && a[i] == b[i]
    decreases i
  {
    hide Read, Less;
    forall j: nat | j < i ensures j < |b| && a[j] == b[j] {
      PageAgreesAt(s, a, b, start, end, limit, readTs, j);
    }
    forall j: nat | j < i && j < |b| ensures j < |a| && a[j] == b[j] {}
    assert HoldsOrEnds(b, limit, a[i].0);
    if i < |b| {
      assert HoldsOrEnds(a, limit, b[i].0);
      LessTotal(a[i].0, b[i].0);
      if Less(a[i].0, b[i].0) { SmallerIsMissing(a, b, limit, i); }
      if Less(b[i].0, a[i].0) { SmallerIsMissing(b, a, limit, i); }
    } else if j :| 0 <= j < |b| && b[j].0 == a[i].0 {
      assert a[j] == b[j];
      LessIrreflexive(a[i].0);
    }
  }

  lemma SmallerIsMissing(a: seq<Pair>, b: seq<Pair>, limit: u32, i: nat)
    requires KeysAscend(a) && KeysAscend(b) && i < |a| && i < |b| && (forall j: nat | j < i :: a[j] == b[j])
    requires Less(a[i].0, b[i].0)
    ensures !HoldsOrEnds(b, limit, a[i].0)
  {
    hide Less;
    LessAsymmetric(a[i].0, b[i].0);
    LessIrreflexive(a[i].0);
    forall j | 0 <= j < |b| ensures b[j].0 != a[i].0 {
      if j > i { LessTransitive(a[i].0, b[i].0, b[j].0); }
    }
  }

  lemma PageUnique(s: Store, a: seq<Pair>, b: seq<Pair>, start: Key, end: Key, limit: u32, readTs: Ts)
    requires IsPage(s, a, start, end, limit, readTs) && IsPage(s, b, start, end, limit, readTs)
    ensures a == b
  {
    hide IsPage;
    forall i: nat | i < |a| ensures i < |b| && a[i] == b[i] { PageAgreesAt(s, a, b, start, end, limit, readTs, i); }
    if |a| > 0 { PageAgreesAt(s, a, b, start, end, limit, readTs, |a| - 1); }
    if |b| > 0 { PageAgreesAt(s, b, a, start, end, limit, readTs, |b| - 1); }
  }
}
