/** Key listing, statistics and median split key of a region (storage/engine.rs). */
module Regions {
  import opened Bytes
  import opened Ordered
  import opened Wrappers
  import opened KeyEncoder
  import opened Records
  import opened Store
  import opened RangeScan

  function KeysOf(writes: Writes, start: Key, end: Key): set<Key> {
    set v | v in writes && InRange(v.key, start, end) :: v.key
  }

  /** The distinct user keys in range, sorted. */
  function KeysInRange(writes: Writes, start: Key, end: Key): (ks: seq<Key>)
    ensures |ks| == |KeysOf(writes, start, end)| && Ascending(ks, Less)
    ensures forall k :: k in ks <==> k in KeysOf(writes, start, end)
  {
    LessIsOrder();
    Sorted(KeysOf(writes, start, end), Less)
  }

  function Median(ks: seq<Key>): Option<Key> {
    if |ks| < 2 then None else Some(ks[|ks| / 2])
  }

  datatype Stats = Stats(keys: nat, bytes: nat)

  /** The stored bytes of a version: its encoded key and its record. */
  function Size(writes: Writes, v: Version): nat
    requires v in writes
  {
    |Encode(v.key, v.ts)| + |RecordToBytes(writes[v])|
  }

  /** The walk that counts a key whenever it differs from the one before. */
  function Tally(writes: Writes, vs: seq<Version>, start: Key, end: Key, last: Option<Key>): Stats
    requires forall v | v in vs :: v in writes
  {
    if vs == [] then Stats(0, 0)
    else if !InRange(vs[0].key, start, end) then Tally(writes, vs[1..], start, end, last)
    else
      var rest := Tally(writes, vs[1..], start, end, Some(vs[0].key));
      Stats(rest.keys + if last == Some(vs[0].key) then 0 else 1, rest.bytes + Size(writes, vs[0]))
  }

  function RegionStats(writes: Writes, start: Key, end: Key): Stats {
    Tally(writes, Scan(writes, []), start, end, None)
  }

  // ---------- Splitting a range ----------

  /** The split key lies strictly inside the range. */
  predicate Splits(start: Key, end: Key, mid: Key) {
    InRange(mid, start, end) && mid != start && mid != []
  }

  /** Every key of the range lies on exactly one side, and no other key on either. */
  lemma SidesPartition(start: Key, end: Key, mid: Key, key: Key)
    requires Splits(start, end, mid)
    ensures InRange(key, start, end) <==> InRange(key, start, mid) || InRange(key, mid, end)
    ensures !(InRange(key, start, mid) && InRange(key, mid, end))
  {
    hide Less;
    LessTotal(key, mid);
    LessTotal(key, start);
    LessTotal(mid, start);
    if Less(key, mid) && end != [] && Less(mid, end) { LessTransitive(key, mid, end); }
    if Less(key, start) && Less(start, mid) { LessTransitive(key, start, mid); }
  }

  /** Stored bytes are conserved by a split. */
  lemma {:induction false} BytesAddUp(writes: Writes, vs: seq<Version>, start: Key, end: Key, mid: Key,
                                      a: Option<Key>, b: Option<Key>, c: Option<Key>)
    requires Splits(start, end, mid) && forall v | v in vs :: v in writes
    ensures Tally(writes, vs, start, end, a).bytes
            == Tally(writes, vs, start, mid, b).bytes + Tally(writes, vs, mid, end, c).bytes
    decreases |vs|
  {
    hide InRange, Size;
    if vs != [] {
      var k := vs[0].key;
      SidesPartition(start, end, mid, k);
      BytesAddUp(writes, vs[1..], start, end, mid,
                 if InRange(k, start, end) then Some(k) else a,
                 if InRange(k, start, mid) then Some(k) else b,
                 if InRange(k, mid, end) then Some(k) else c);
    }
  }

  /** The sum over these versions of the length of the key and the 17 bytes of timestamp and record. */
  ghost function Total(vs: set<Version>): nat {
    if vs == {} then 0
    else
      var v :| v in vs;
      |v.key| + 17 + Total(vs - {v})
  }

  lemma {:induction false} TotalWithout(vs: set<Version>, v: Version)
    requires v in vs
    ensures Total(vs) == |v.key| + 17 + Total(vs - {v})
    decreases vs
  {
    var u :| u in vs && Total(vs) == |u.key| + 17 + Total(vs - {u});
    if u != v {
      TotalWithout(vs - {u}, v);
      TotalWithout(vs - {v}, u);
      assert vs - {u} - {v} == vs - {v} - {u};
    }
  }

  lemma SizeIs(writes: Writes, v: Version)
    requires v in writes
    ensures Size(writes, v) == |v.key| + 17
  {
  }

  function VersionsIn(vs: seq<Version>, start: Key, end: Key): set<Version> {
    set v | v in vs && InRange(v.key, start, end)
  }

  lemma {:induction false} TallyTotals(writes: Writes, vs: seq<Version>, start: Key, end: Key, last: Option<Key>)
    requires forall v | v in vs :: v in writes
    requires forall i, j | 0 <= i < j < |vs| :: vs[i] != vs[j]
    ensures Tally(writes, vs, start, end, last).bytes == Total(VersionsIn(vs, start, end))
    decreases |vs|
  {
    hide InRange, Size;
    var all := VersionsIn(vs, start, end);
    if vs == [] {
      assert all == {};
    } else {
      var v, rest := vs[0], VersionsIn(vs[1..], start, end);
      assert forall u :: u in vs <==> u == v || u in vs[1..];
      assert v !in vs[1..];
      SizeIs(writes, v);
      if InRange(v.key, start, end) {
        TallyTotals(writes, vs[1..], start, end, Some(v.key));
        TotalWithout(all, v);
        assert all - {v} == rest;
      } else {
        TallyTotals(writes, vs[1..], start, end, last);
        assert all == rest;
      }
    }
  }

  /** The bytes of a region are the sum over its stored versions of the key's length and 17. */
  lemma BytesAreTotal(writes: Writes, start: Key, end: Key)
    ensures RegionStats(writes, start, end).bytes == Total(set v | v in writes && InRange(v.key, start, end))
  {
    hide Tally, Scan, InRange, Total;
    var vs := Scan(writes, []);
    ScanFacts(writes, []);
    ScanDescends(writes, []);
    TallyTotals(writes, vs, start, end, None);
    assert VersionsIn(vs, start, end) == set v | v in writes && InRange(v.key, start, end);
  }

  function KeysIn(vs: seq<Version>, start: Key, end: Key): set<Key> {
    set v | v in vs && InRange(v.key, start, end) :: v.key
  }

  /** On ordered keys the walk counts each key once. */
  lemma {:induction false} TallyCounts(writes: Writes, vs: seq<Version>, start: Key, end: Key, last: Option<Key>)
    requires KeyOrdered(vs) && forall v | v in vs :: v in writes
    requires last.Some? ==> forall i | 0 <= i < |vs| :: Leq(last.value, vs[i].key)
    ensures Tally(writes, vs, start, end, last).keys
            == |KeysIn(vs, start, end) - (if last.Some? then {last.value} else {})|
    decreases |vs|
  {
    hide InRange, Size, Less, KeysIn;
    if vs == [] {
      assert KeysIn(vs, start, end) == {} by { KeysOfNone(start, end); }
    } else {
      var k, rest := vs[0].key, vs[1..];
      KeysInCons(vs, start, end);
      assert forall v | v in rest :: v in vs;
      assert KeyOrdered(rest);
      if InRange(k, start, end) {
        TallyCounts(writes, rest, start, end, Some(k));
        var others := KeysIn(rest, start, end) - {k};
        if last == Some(k) {
          assert KeysIn(vs, start, end) - {k} == others;
        } else {
          LastIsGone(vs, start, end, last);
          assert KeysIn(vs, start, end) - (if last.Some? then {last.value} else {}) == others + {k};
        }
      } else {
        TallyCounts(writes, rest, start, end, last);
      }
    }
  }

  lemma KeysOfNone(start: Key, end: Key)
    ensures KeysIn([], start, end) == {}
  {
  }

  lemma KeysInCons(vs: seq<Version>, start: Key, end: Key)
    requires vs != []
    ensures KeysIn(vs, start, end)
            == (if InRange(vs[0].key, start, end) then {vs[0].key} else {}) + KeysIn(vs[1..], start, end)
  {
    hide InRange;
    assert forall v :: v in vs <==> v == vs[0] || v in vs[1..];
  }

  lemma LastIsGone(vs: seq<Version>, start: Key, end: Key, last: Option<Key>)
    requires vs != [] && KeyOrdered(vs) && last != Some(vs[0].key)
    requires last.Some? ==> Leq(last.value, vs[0].key)
    ensures last.Some? ==> last.value !in KeysIn(vs, start, end)
  {
    hide Less;
    if last.Some? {
      LessAsymmetric(last.value, vs[0].key);
      forall v | v in vs ensures v.key != last.value {
        var i :| 0 <= i < |vs| && vs[i] == v;
        if i > 0 { LeqNotBelow(last.value, vs[0].key, v.key); }
      }
    }
  }

  lemma LeqNotBelow(a: Key, b: Key, c: Key)
    requires Less(a, b) && Leq(b, c)
    ensures a != c
  {
    LessAsymmetric(a, b);
  }

  /** A split conserves the bytes of a region whatever its keys, and its key count when they are separate. */
  lemma StatsAddUp(writes: Writes, keys: set<Key>, start: Key, end: Key, mid: Key)
    requires Splits(start, end, mid)
    ensures RegionStats(writes, start, end).bytes
            == RegionStats(writes, start, mid).bytes + RegionStats(writes, mid, end).bytes
    ensures Separate(keys) && KeysWithin(writes, keys) ==>
              && RegionStats(writes, start, end).keys
                 == RegionStats(writes, start, mid).keys + RegionStats(writes, mid, end).keys
              && RegionStats(writes, start, end).keys == |KeysOf(writes, start, end)|
  {
    hide Tally, Scan, InRange;
    var vs := Scan(writes, []);
    BytesAddUp(writes, vs, start, end, mid, None, None, None);
    if Separate(keys) && KeysWithin(writes, keys) {
      ScanKeyOrdered(writes, keys, []);
      CountIsKeys(writes, start, end);
      CountIsKeys(writes, start, mid);
      CountIsKeys(writes, mid, end);
      SidesDisjoint(writes, start, end, mid);
    }
  }

  lemma CountIsKeys(writes: Writes, start: Key, end: Key)
    requires KeyOrdered(Scan(writes, []))
    ensures RegionStats(writes, start, end).keys == |KeysOf(writes, start, end)|
  {
    hide Tally, Scan, InRange;
    var vs := Scan(writes, []);
    TallyCounts(writes, vs, start, end, None);
    assert KeysIn(vs, start, end) - {} == KeysIn(vs, start, end);
    KeysOfScan(writes, start, end);
  }

  lemma KeysOfScan(writes: Writes, start: Key, end: Key)
    ensures KeysIn(Scan(writes, []), start, end) == KeysOf(writes, start, end)
  {
    hide Scan, InRange;
    ScanFacts(writes, []);
    assert forall v | v in writes :: v in Scan(writes, []);
  }

  lemma SidesDisjoint(writes: Writes, start: Key, end: Key, mid: Key)
    requires Splits(start, end, mid)
    ensures KeysOf(writes, start, end) == KeysOf(writes, start, mid) + KeysOf(writes, mid, end)
    ensures KeysOf(writes, start, mid) !! KeysOf(writes, mid, end)
    ensures |KeysOf(writes, start, end)| == |KeysOf(writes, start, mid)| + |KeysOf(writes, mid, end)|
  {
    hide InRange;
    forall v | v in writes
      ensures InRange(v.key, start, end) <==> InRange(v.key, start, mid) || InRange(v.key, mid, end)
      ensures !(InRange(v.key, start, mid) && InRange(v.key, mid, end))
    {
      SidesPartition(start, end, mid, v.key);
    }
  }

  // ---------- The median ----------

  /** A median key exists exactly when there are two keys; it splits the range, and the key counts
      of the two sides differ by at most one. */
  lemma MedianSplitsEvenly(writes: Writes, start: Key, end: Key)
    ensures var ks := KeysInRange(writes, start, end);
            && (Median(ks).Some? <==> |KeysOf(writes, start, end)| >= 2)
            && (Median(ks).Some? ==>
                  var mid := Median(ks).value;
                  && Splits(start, end, mid)
                  && |KeysOf(writes, start, mid)| == |ks| / 2
                  && |KeysOf(writes, mid, end)| == |ks| - |ks| / 2)
  {
    hide InRange, Less;
    var ks := KeysInRange(writes, start, end);
    if |ks| >= 2 {
      var h := |ks| / 2;
      var mid := ks[h];
      assert ks[0] in ks && mid in ks;
      InsideRange(start, end, ks[0], mid);
      SidesDisjoint(writes, start, end, mid);
      LowerHalf(writes, start, end, h);
    }
  }

  lemma InsideRange(start: Key, end: Key, first: Key, mid: Key)
    requires InRange(first, start, end) && InRange(mid, start, end) && Less(first, mid)
    ensures Splits(start, end, mid)
  {
  }

  lemma LowerHalf(writes: Writes, start: Key, end: Key, h: nat)
    requires var ks := KeysInRange(writes, start, end); 0 < h < |ks| && Splits(start, end, ks[h])
    ensures |KeysOf(writes, start, KeysInRange(writes, start, end)[h])| == h
  {
    hide Less, KeysInRange;
    var ks := KeysInRange(writes, start, end);
    var low := KeysInRange(writes, start, ks[h]);
    forall k ensures k in low <==> k in ks[..h] {
      LowerKeys(writes, start, end, ks, h, k);
    }
    LessIsOrder();
    AscendingUnique(low, ks[..h], Less);
  }

  lemma LowerKeys(writes: Writes, start: Key, end: Key, ks: seq<Key>, h: nat, k: Key)
    requires h < |ks| && Ascending(ks, Less) && (forall key :: key in ks <==> key in KeysOf(writes, start, end))
    requires Splits(start, end, ks[h])
    ensures k in KeysOf(writes, start, ks[h]) <==> k in ks[..h]
  {
    hide Less;
    SidesPartition(start, end, ks[h], k);
    if k in KeysOf(writes, start, ks[h]) {
      assert k in KeysOf(writes, start, end);
      var i :| 0 <= i < |ks| && ks[i] == k;
      LessAsymmetric(k, ks[h]);
      if i < h { assert ks[..h][i] == k; }
    }
    if k in ks[..h] {
      var i :| 0 <= i < h && ks[..h][i] == k;
      assert ks[i] == k && k in ks;
    }
  }
}
