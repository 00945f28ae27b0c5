/** The region table and its splits (raft-engine/router.rs, node/server.rs, node/service.rs). */
module Routing {
  import opened Bytes
  import opened Ordered
  import opened Wrappers
  import opened KeyEncoder
  import opened Records
  import opened RangeScan
  import opened Regions

  datatype Epoch = Epoch(confVer: nat, version: nat)

  datatype Region = Region(id: u64, start: Key, end: Key, peers: seq<u64>, epoch: Epoch) {
    predicate Contains(key: Key) {
      InRange(key, start, end)
    }
  }

  datatype RouterError = RegionNotFound(key: Key) | RegionIdNotFound(id: u64)

  datatype Table = Table(byId: map<u64, Region>, byKey: map<Key, Region>)

  const NO_REGIONS := Table(map[], map[])

  function Insert(t: Table, r: Region): Table {
    Table(t.byId[r.id := r], t.byKey[r.start := r])
  }

  /** The last of the listed regions that contains the key. */
  function RouteAmong(t: Table, starts: seq<Key>, key: Key): Result<Region, RouterError>
    requires forall k | k in starts :: k in t.byKey
  {
    if starts == [] then Err(RegionNotFound(key))
    else
      var r := t.byKey[starts[|starts| - 1]];
      if r.Contains(key) then Ok(r) else RouteAmong(t, starts[..|starts| - 1], key)
  }

  /** `regions_by_key.values().rev()`. */
  function Route(t: Table, key: Key): Result<Region, RouterError> {
    LessIsOrder();
    RouteAmong(t, Sorted(t.byKey.Keys, Less), key)
  }

  function LeftOf(r: Region, key: Key): Region {
    r.(end := key, epoch := Epoch(r.epoch.confVer, r.epoch.version + 1))
  }

  function RightOf(r: Region, key: Key, id: u64): Region {
    Region(id, key, r.end, r.peers, Epoch(r.epoch.confVer, 1))
  }

  function SplitError(t: Table, id: u64, key: Key): Option<RouterError> {
    if id !in t.byId then Some(RegionIdNotFound(id))
    else if !t.byId[id].Contains(key) || key == t.byId[id].start then Some(RegionNotFound(key))
    else None
  }

  function SplitTable(t: Table, id: u64, key: Key, newId: u64): Table
    requires id in t.byId
  {
    var r := t.byId[id];
    var (left, right) := (LeftOf(r, key), RightOf(r, key, newId));
    Table(t.byId[left.id := left][right.id := right],
          (t.byKey - {r.start})[left.start := left][right.start := right])
  }

  // ---------- A table that tiles the key space ----------

  /** Regions in key order, each ending where the next begins, open at both ends. */
  ghost predicate Contiguous(rs: seq<Region>) {
    && rs != [] && rs[0].start == [] && rs[|rs| - 1].end == []
    && forall i | 0 <= i < |rs| - 1 :: rs[i].end == rs[i + 1].start && Less(rs[i].start, rs[i].end)
  }

  ghost predicate DistinctIds(rs: seq<Region>) {
    forall i, j | 0 <= i < j < |rs| :: rs[i].id != rs[j].id
  }

  /** Both indexes hold exactly these regions. */
  ghost predicate Indexes(t: Table, rs: seq<Region>) {
    && (forall r | r in rs :: r.id in t.byId && t.byId[r.id] == r && r.start in t.byKey && t.byKey[r.start] == r)
    && (forall id | id in t.byId :: t.byId[id] in rs && t.byId[id].id == id)
    && (forall k | k in t.byKey :: t.byKey[k] in rs && t.byKey[k].start == k)
  }

  ghost predicate Tiles(t: Table, rs: seq<Region>) {
    Contiguous(rs) && DistinctIds(rs) && Indexes(t, rs)
  }

  /** How often the regions have been split on their left side. */
  function SplitCount(rs: seq<Region>): int {
    if rs == [] then 0 else rs[0].epoch.version - 1 + SplitCount(rs[1..])
  }

  // ---------- Exactly one region contains a key ----------

  lemma {:induction false} StartsAscend(rs: seq<Region>, i: nat, j: nat)
    requires Contiguous(rs) && i < j < |rs|
    ensures Less(rs[i].start, rs[j].start)
    decreases j
  {
    hide Less;
    if i < j - 1 {
      StartsAscend(rs, i, j - 1);
      LessTransitive(rs[i].start, rs[j - 1].start, rs[j].start);
    }
  }

  /** A region does not reach into a later one. */
  lemma NotBoth(rs: seq<Region>, i: nat, j: nat, key: Key)
    requires Contiguous(rs) && i < j < |rs| && rs[j].Contains(key)
    ensures !rs[i].Contains(key)
  {
    hide Less;
    StartsAscend(rs, 0, j);
    assert rs[j].start != [] by { LessIrreflexive(rs[0].start); }
    if i + 1 < j {
      StartsAscend(rs, i + 1, j);
      LessTotal(key, rs[j].start);
      if Less(key, rs[i + 1].start) { LessTransitive(key, rs[i + 1].start, rs[j].start); }
    }
    StartsAscend(rs, 0, i + 1);
    assert rs[i].end != [] by { LessIrreflexive(rs[0].start); }
  }

  lemma {:induction false} SomeContains(rs: seq<Region>, n: nat, key: Key) returns (i: nat)
    requires Contiguous(rs) && n < |rs|
    requires n == |rs| - 1 || Less(key, rs[n].end)
    ensures i < |rs| && rs[i].Contains(key)
    decreases n
  {
    hide Less;
    if rs[n].start == [] || !Less(key, rs[n].start) {
      i := n;
    } else {
      i := SomeContains(rs, n - 1, key);
    }
  }

  ghost predicate OnlyOne(rs: seq<Region>, i: nat, key: Key) {
    i < |rs| && rs[i].Contains(key) && forall j: nat | j < |rs| && rs[j].Contains(key) :: j == i
  }

  lemma ExactlyOne(rs: seq<Region>, key: Key) returns (i: nat)
    requires Contiguous(rs)
    ensures OnlyOne(rs, i, key)
  {
    i := SomeContains(rs, |rs| - 1, key);
    forall j: nat | j < |rs| && j != i ensures !rs[j].Contains(key) {
      if j < i {
        NotBoth(rs, j, i, key);
      } else if rs[j].Contains(key) {
        NotBoth(rs, i, j, key);
      }
    }
  }

  lemma {:induction false} RouteFinds(t: Table, starts: seq<Key>, key: Key)
    requires forall k | k in starts :: k in t.byKey
    ensures match RouteAmong(t, starts, key)
            case Ok(r) => r.Contains(key) && exists k :: k in starts && t.byKey[k] == r
            case Err(e) => e == RegionNotFound(key) && forall k | k in starts :: !t.byKey[k].Contains(key)
  {
    if starts != [] {
      RouteFinds(t, starts[..|starts| - 1], key);
      assert starts == starts[..|starts| - 1] + [starts[|starts| - 1]];
    }
  }

  /** A tiling table routes every key, to the one region that contains it. */
  lemma RouteIsUnique(t: Table, rs: seq<Region>, key: Key) returns (i: nat)
    requires Tiles(t, rs)
    ensures OnlyOne(rs, i, key) && Route(t, key) == Ok(rs[i])
  {
    LessIsOrder();
    i := ExactlyOne(rs, key);
    var starts := Sorted(t.byKey.Keys, Less);
    RouteFinds(t, starts, key);
    assert rs[i] in rs && rs[i].start in starts;
    var found := Route(t, key);
    assert found.Ok?;
    var k :| k in starts && t.byKey[k] == found.value;
    assert t.byKey[k] in rs;
    var j :| 0 <= j < |rs| && rs[j] == found.value;
  }

  // ---------- Splits keep the tiling ----------

  function SplitSeq(rs: seq<Region>, i: nat, key: Key, newId: u64): seq<Region>
    requires i < |rs|
  {
    rs[..i] + [LeftOf(rs[i], key), RightOf(rs[i], key, newId)] + rs[i + 1..]
  }

  lemma SplitContiguous(rs: seq<Region>, i: nat, key: Key, newId: u64)
    requires Contiguous(rs) && i < |rs| && rs[i].Contains(key) && key != rs[i].start
    ensures Contiguous(SplitSeq(rs, i, key, newId)) && key != []
  {
    hide Less;
    var r, n := SplitSeq(rs, i, key, newId), |rs| + 1;
    LessTotal(rs[i].start, key);
    LessTotal(rs[i].start, []);
    EmptyIsLeast(key);
    EmptyIsLeast(rs[i].start);
    forall j | 0 <= j < n - 1 ensures r[j].end == r[j + 1].start && Less(r[j].start, r[j].end) {
      if j < i {
        assert rs[j].end == rs[j + 1].start;
      } else if j > i {
        assert r[j + 1] == rs[j];
      }
    }
    assert r[n - 1].end == rs[|rs| - 1].end;
  }

  lemma EmptyIsLeast(k: Key)
    ensures !Less(k, [])
  {
  }

  /** The split key starts no region. */
  lemma KeyStartsNone(rs: seq<Region>, i: nat, key: Key, j: nat)
    requires Contiguous(rs) && i < |rs| && j < |rs| && rs[i].Contains(key) && key != rs[i].start
    ensures rs[j].start != key
  {
    hide Less;
    LessIrreflexive(key);
    if rs[j].start == key {
      assert rs[j].Contains(key) by { if j < |rs| - 1 { assert Less(rs[j].start, rs[j].end); } }
      if j < i { NotBoth(rs, j, i, key); } else { NotBoth(rs, i, j, key); }
    }
  }

  lemma InSplitSeq(rs: seq<Region>, i: nat, key: Key, newId: u64, r: Region)
    requires i < |rs| && DistinctIds(rs)
    ensures r in SplitSeq(rs, i, key, newId)
            <==> r == LeftOf(rs[i], key) || r == RightOf(rs[i], key, newId) || (r in rs && r.id != rs[i].id)
  {
    var ss := SplitSeq(rs, i, key, newId);
    if r in rs && r.id != rs[i].id {
      var j :| 0 <= j < |rs| && rs[j] == r;
      assert ss[if j < i then j else j + 1] == r;
    }
    if r in rs[..i] {
      var j :| 0 <= j < i && rs[..i][j] == r;
      assert rs[j] == r;
    }
    if r in rs[i + 1..] {
      var j :| 0 <= j < |rs| - i - 1 && rs[i + 1..][j] == r;
      assert rs[i + 1 + j] == r;
    }
    assert ss[i] == LeftOf(rs[i], key) && ss[i + 1] == RightOf(rs[i], key, newId);
  }

  /** The regions of a table after a split: the two halves and every other region. */
  ghost predicate AfterSplit(rs: seq<Region>, ss: seq<Region>, r: Region, left: Region, right: Region) {
    forall x :: x in ss <==> x == left || x == right || (x in rs && x.id != r.id)
  }

  lemma SplitIndexes(t: Table, rs: seq<Region>, i: nat, key: Key, newId: u64)
    requires Tiles(t, rs) && i < |rs| && rs[i].Contains(key) && key != rs[i].start && newId !in t.byId
    ensures Indexes(SplitTable(t, rs[i].id, key, newId), SplitSeq(rs, i, key, newId))
    ensures DistinctIds(SplitSeq(rs, i, key, newId))
  {
    hide Contiguous, SplitSeq, DistinctIds, InRange, SplitTable;
    var r, ss := rs[i], SplitSeq(rs, i, key, newId);
    assert r in rs;
    assert AfterSplit(rs, ss, r, LeftOf(r, key), RightOf(r, key, newId)) by {
      forall x { InSplitSeq(rs, i, key, newId, x); }
    }
    SplitKeyIsFresh(t, rs, i, key);
    IndexesSplit(t, rs, ss, r, key, newId);
    SplitIds(rs, i, key, newId, t);
  }

  lemma IndexesSplit(t: Table, rs: seq<Region>, ss: seq<Region>, r: Region, key: Key, newId: u64)
    requires Indexes(t, rs) && r in rs && newId !in t.byId && key !in t.byKey
    requires AfterSplit(rs, ss, r, LeftOf(r, key), RightOf(r, key, newId))
    ensures Indexes(SplitTable(t, r.id, key, newId), ss)
  {
    var t' := SplitTable(t, r.id, key, newId);
    forall x | x in rs && x.id != r.id
      ensures x.id in t'.byId && t'.byId[x.id] == x && x.start in t'.byKey && t'.byKey[x.start] == x {}
    forall k | k in t'.byKey && k != key && k != r.start ensures t'.byKey[k] in ss && t'.byKey[k].start == k {
      assert t.byKey[k] in rs;
    }
  }

  lemma SplitIds(rs: seq<Region>, i: nat, key: Key, newId: u64, t: Table)
    requires DistinctIds(rs) && Indexes(t, rs) && i < |rs| && newId !in t.byId
    ensures DistinctIds(SplitSeq(rs, i, key, newId))
  {
    assert forall j | 0 <= j < |rs| :: rs[j] in rs && rs[j].id != newId;
  }

  lemma {:induction false} SplitCountConcat(a: seq<Region>, b: seq<Region>)
    ensures SplitCount(a + b) == SplitCount(a) + SplitCount(b)
  {
    if a == [] {
      assert a + b == b;
    } else {
      assert (a + b)[1..] == a[1..] + b;
      SplitCountConcat(a[1..], b);
    }
  }

  lemma SplitCounts(rs: seq<Region>, i: nat, key: Key, newId: u64)
    requires i < |rs|
    ensures SplitCount(SplitSeq(rs, i, key, newId)) == SplitCount(rs) + 1
  {
    var l, r := LeftOf(rs[i], key), RightOf(rs[i], key, newId);
    SplitCountConcat(rs[..i] + [l, r], rs[i + 1..]);
    SplitCountConcat(rs[..i], [l, r]);
    SplitCountConcat(rs[..i], [rs[i]] + rs[i + 1..]);
    assert rs == rs[..i] + ([rs[i]] + rs[i + 1..]);
    assert [l, r][1..] == [r] && [r][1..] == [];
    assert ([rs[i]] + rs[i + 1..])[1..] == rs[i + 1..];
  }

  // ---------- Every run of splits ----------

  datatype Node = Node(table: Table, nextId: u64)

  function FirstRegion(nodeId: u64): Region {
    Region(1, [], [], [nodeId], Epoch(1, 1))
  }

  function NewNode(nodeId: u64): Node {
    Node(Insert(NO_REGIONS, FirstRegion(nodeId)), 2)
  }

  /** The split key asked for, or the median of the keys stored in the region. */
  function SplitKey(r: Region, asked: Key, stored: map<Version, WriteRecord>): Option<Key> {
    if asked != [] then Some(asked) else Median(KeysInRange(stored, r.start, r.end))
  }

  function AskSplit(n: Node, id: u64, asked: Key, stored: map<Version, WriteRecord>): Node {
    if id !in n.table.byId then n
    else match SplitKey(n.table.byId[id], asked, stored)
      case None => n
      case Some(key) =>
        var next: u64 := (n.nextId + 1) % TWO_64;
        if SplitError(n.table, id, key).Some? then n.(nextId := next)
        else Node(SplitTable(n.table, id, key, n.nextId), next)
  }

  datatype Ask = Ask(id: u64, key: Key, stored: map<Version, WriteRecord>)

  function AfterAsks(n: Node, asks: seq<Ask>): Node
    decreases |asks|
  {
    if asks == [] then n else AfterAsks(AskSplit(n, asks[0].id, asks[0].key, asks[0].stored), asks[1..])
  }

  /** The table tiles the key space, and the number of regions is one more than the number of left
      splits their epochs record. */
  ghost predicate NodeTiles(n: Node, rs: seq<Region>) {
    && Tiles(n.table, rs)
    && |n.table.byId| == |rs| && |n.table.byKey| == |rs| && |rs| == 1 + SplitCount(rs)
  }

  /** A median, when there is one, is always an acceptable split key. */
  lemma MedianIsAccepted(t: Table, id: u64, stored: map<Version, WriteRecord>)
    requires id in t.byId
    ensures var r := t.byId[id];
            SplitKey(r, [], stored).Some? ==> SplitError(t, id, SplitKey(r, [], stored).value) == None
  {
    hide KeysInRange;
    var r := t.byId[id];
    MedianSplitsEvenly(stored, r.start, r.end);
  }

  /** The request names a region and a key that can split it. */
  predicate Accepted(n: Node, ask: Ask) {
    ask.id in n.table.byId &&
    var key := SplitKey(n.table.byId[ask.id], ask.key, ask.stored);
    key.Some? && SplitError(n.table, ask.id, key.value) == None
  }

  lemma AskTiles(n: Node, rs: seq<Region>, ask: Ask) returns (rs': seq<Region>)
    requires NodeTiles(n, rs) && (Accepted(n, ask) ==> n.nextId !in n.table.byId)
    ensures NodeTiles(AskSplit(n, ask.id, ask.key, ask.stored), rs')
  {
    hide SplitKey, SplitSeq, SplitTable, Tiles, SplitCount;
    rs' := rs;
    if Accepted(n, ask) {
      var key := SplitKey(n.table.byId[ask.id], ask.key, ask.stored).value;
      var i := RegionAt(n, rs, ask.id);
      rs' := SplitSeq(rs, i, key, n.nextId);
      SplitStep(n, rs, i, key);
    }
  }

  lemma RegionAt(n: Node, rs: seq<Region>, id: u64) returns (i: nat)
    requires NodeTiles(n, rs) && id in n.table.byId
    ensures i < |rs| && rs[i] == n.table.byId[id] && rs[i].id == id
  {
    hide SplitCount;
    assert n.table.byId[id] in rs;
    i :| 0 <= i < |rs| && rs[i] == n.table.byId[id];
  }

  lemma SplitStep(n: Node, rs: seq<Region>, i: nat, key: Key)
    requires NodeTiles(n, rs) && n.nextId !in n.table.byId
    requires i < |rs| && rs[i].Contains(key) && key != rs[i].start
    ensures forall next: u64 ::
              NodeTiles(Node(SplitTable(n.table, rs[i].id, key, n.nextId), next), SplitSeq(rs, i, key, n.nextId))
  {
    hide Less, SplitCount;
    SplitContiguous(rs, i, key, n.nextId);
    SplitIndexes(n.table, rs, i, key, n.nextId);
    SplitCounts(rs, i, key, n.nextId);
    SplitGrows(n, rs, i, key);
  }

  lemma SplitKeyIsFresh(t: Table, rs: seq<Region>, i: nat, key: Key)
    requires Tiles(t, rs) && i < |rs| && rs[i].Contains(key) && key != rs[i].start
    ensures key !in t.byKey && rs[i].start in t.byKey && rs[i].id in t.byId && t.byId[rs[i].id] == rs[i]
  {
    hide Contiguous, Less;
    assert rs[i] in rs;
    if key in t.byKey {
      var j :| 0 <= j < |rs| && rs[j] == t.byKey[key];
      KeyStartsNone(rs, i, key, j);
    }
  }

  lemma SplitSizes(t: Table, id: u64, key: Key, newId: u64)
    requires id in t.byId && t.byId[id].id == id && t.byId[id].start in t.byKey
    requires newId !in t.byId && key !in t.byKey
    ensures var t' := SplitTable(t, id, key, newId);
            && |t'.byId| == |t.byId| + 1 && |t'.byKey| == |t.byKey| + 1
            && t'.byId.Keys == t.byId.Keys + {newId}
  {
    var t' := SplitTable(t, id, key, newId);
    assert t'.byId.Keys == t.byId.Keys + {newId};
    assert t'.byKey.Keys == t.byKey.Keys + {key};
  }

  lemma SplitGrows(n: Node, rs: seq<Region>, i: nat, key: Key)
    requires NodeTiles(n, rs) && n.nextId !in n.table.byId
    requires i < |rs| && rs[i].Contains(key) && key != rs[i].start
    ensures var t' := SplitTable(n.table, rs[i].id, key, n.nextId);
            |t'.byId| == |n.table.byId| + 1 && |t'.byKey| == |n.table.byKey| + 1
  {
    hide SplitCount, Tiles, SplitTable, InRange;
    SplitKeyIsFresh(n.table, rs, i, key);
    SplitSizes(n.table, rs[i].id, key, n.nextId);
  }

  /** Every split that is carried out gets an id that no region has. */
  ghost predicate FreshIds(n: Node, asks: seq<Ask>)
    decreases |asks|
  {
    asks != [] ==>
      && (Accepted(n, asks[0]) ==> n.nextId !in n.table.byId)
      && FreshIds(AskSplit(n, asks[0].id, asks[0].key, asks[0].stored), asks[1..])
  }

  lemma {:induction false} AsksTile(n: Node, rs: seq<Region>, asks: seq<Ask>) returns (rs': seq<Region>)
    requires NodeTiles(n, rs) && FreshIds(n, asks)
    ensures NodeTiles(AfterAsks(n, asks), rs')
    decreases |asks|
  {
    hide AskSplit, NodeTiles, Accepted;
    rs' := rs;
    if asks != [] {
      var mid := AskTiles(n, rs, asks[0]);
      rs' := AsksTile(AskSplit(n, asks[0].id, asks[0].key, asks[0].stored), mid, asks[1..]);
    }
  }

  /** Ids are fresh as long as the counter has not wrapped. */
  lemma {:induction false} IdsBelow(n: Node, asks: seq<Ask>)
    requires forall id | id in n.table.byId :: id < n.nextId && n.table.byId[id].id == id
    requires n.nextId + |asks| <= TWO_64
    ensures FreshIds(n, asks)
    decreases |asks|
  {
    hide SplitKey, SplitError;
    if |asks| == 1 {
      assert asks[1..] == [];
    } else if asks != [] {
      IdsBelow(AskSplit(n, asks[0].id, asks[0].key, asks[0].stored), asks[1..]);
    }
  }

  /** The first 2^64 - 2 requests all get fresh ids. */
  lemma EarlyIdsAreFresh(nodeId: u64, asks: seq<Ask>)
    requires |asks| <= TWO_64 - 2
    ensures FreshIds(NewNode(nodeId), asks)
  {
    IdsBelow(NewNode(nodeId), asks);
  }

  /** A split is refused for the region exactly when the id is unknown, and for the key exactly when it does
      not lie strictly inside the region. */
  lemma SplitRefusedExactly(t: Table, id: u64, key: Key)
    ensures SplitError(t, id, key) == Some(RegionIdNotFound(id)) <==> id !in t.byId
    ensures id in t.byId ==>
              (SplitError(t, id, key)
               == if Splits(t.byId[id].start, t.byId[id].end, key) then None else Some(RegionNotFound(key)))
  {
    hide Less;
    if id in t.byId && key == [] {
      EmptyIsLeast(t.byId[id].start);
      LessTotal([], t.byId[id].start);
    }
  }

  // ---------- Epochs and peers ----------

  /** A split replaces the region by two that meet at the key: the left one keeps the id and counts one
      split more, the right one takes the new id and starts at 1; both keep the peers and the
      configuration version.  No other region changes, in either index. */
  lemma SplitExactly(t: Table, id: u64, key: Key, newId: u64)
    requires id in t.byId && newId != id && t.byId[id].id == id && key != t.byId[id].start
    ensures var r, t' := t.byId[id], SplitTable(t, id, key, newId);
            var left := Region(id, r.start, key, r.peers, Epoch(r.epoch.confVer, r.epoch.version + 1));
            var right := Region(newId, key, r.end, r.peers, Epoch(r.epoch.confVer, 1));
            && id in t'.byId && t'.byId[id] == left && r.start in t'.byKey && t'.byKey[r.start] == left
            && newId in t'.byId && t'.byId[newId] == right && key in t'.byKey && t'.byKey[key] == right
            && (forall i | i != id && i != newId :: i in t'.byId <==> i in t.byId)
            && (forall i | i != id && i != newId && i in t.byId :: t'.byId[i] == t.byId[i])
            && (forall k | k != r.start && k != key :: k in t'.byKey <==> k in t.byKey)
            && (forall k | k != r.start && k != key && k in t.byKey :: t'.byKey[k] == t.byKey[k])
  {
  }

  /** How many of the requests split the region. */
  ghost function SplitsOf(n: Node, asks: seq<Ask>, id: u64): nat
    decreases |asks|
  {
    if asks == [] then 0
    else
      (if Accepted(n, asks[0]) && asks[0].id == id then 1 else 0)
      + SplitsOf(AskSplit(n, asks[0].id, asks[0].key, asks[0].stored), asks[1..], id)
  }

  /** Every region is filed under its id, with these peers and this configuration version. */
  ghost predicate Inherit(t: Table, peers: seq<u64>, confVer: nat) {
    forall id | id in t.byId :: t.byId[id].id == id && t.byId[id].peers == peers && t.byId[id].epoch.confVer == confVer
  }

  lemma {:induction false} EpochsCount(n: Node, asks: seq<Ask>, peers: seq<u64>, confVer: nat, id: u64)
    requires FreshIds(n, asks) && Inherit(n.table, peers, confVer)
    ensures Inherit(AfterAsks(n, asks).table, peers, confVer)
    ensures id in AfterAsks(n, asks).table.byId ==>
              AfterAsks(n, asks).table.byId[id].epoch.version
              == (if id in n.table.byId then n.table.byId[id].epoch.version else 1) + SplitsOf(n, asks, id)
    decreases |asks|
  {
    hide SplitKey, SplitError, SplitTable;
    if asks != [] {
      var n' := AskSplit(n, asks[0].id, asks[0].key, asks[0].stored);
      if Accepted(n, asks[0]) {
        var key := SplitKey(n.table.byId[asks[0].id], asks[0].key, asks[0].stored).value;
        AcceptedInside(n.table, asks[0].id, key);
        SplitExactly(n.table, asks[0].id, key, n.nextId);
      }
      EpochsCount(n', asks[1..], peers, confVer, id);
    }
  }

  lemma AcceptedInside(t: Table, id: u64, key: Key)
    requires id in t.byId && SplitError(t, id, key) == None
    ensures key != t.byId[id].start
  {
  }

  /** After any run of split requests on a new node, every region has the node's peers, and its version is
      one more than the number of times it was split. */
  lemma VersionsCountSplits(nodeId: u64, asks: seq<Ask>, id: u64)
    requires FreshIds(NewNode(nodeId), asks) && id in AfterAsks(NewNode(nodeId), asks).table.byId
    ensures var r := AfterAsks(NewNode(nodeId), asks).table.byId[id];
            r.id == id && r.peers == [nodeId] && r.epoch == Epoch(1, 1 + SplitsOf(NewNode(nodeId), asks, id))
  {
    EpochsCount(NewNode(nodeId), asks, [nodeId], 1, id);
  }

  /** A split keeps the tiling exactly when its id is fresh: with any other, no sequence of regions
      fits both indexes. */
  lemma SplitKeepsTilingExactly(t: Table, rs: seq<Region>, i: nat, key: Key, newId: u64)
    requires Tiles(t, rs) && i < |rs| && rs[i].Contains(key) && key != rs[i].start
    ensures (exists ss :: Tiles(SplitTable(t, rs[i].id, key, newId), ss)) <==> newId !in t.byId
  {
    hide Contiguous, DistinctIds, SplitTable, InRange;
    if newId !in t.byId {
      SplitContiguous(rs, i, key, newId);
      SplitIndexes(t, rs, i, key, newId);
      assert Tiles(SplitTable(t, rs[i].id, key, newId), SplitSeq(rs, i, key, newId));
    } else {
      forall ss ensures !Indexes(SplitTable(t, rs[i].id, key, newId), ss) {
        ReusedIdBreaks(t, rs, i, key, newId, ss);
      }
    }
  }

  lemma ReusedIdBreaks(t: Table, rs: seq<Region>, i: nat, key: Key, newId: u64, ss: seq<Region>)
    requires Tiles(t, rs) && i < |rs| && rs[i].Contains(key) && key != rs[i].start && newId in t.byId
    ensures !Indexes(SplitTable(t, rs[i].id, key, newId), ss)
  {
    hide Contiguous, DistinctIds, InRange;
    var r, t' := rs[i], SplitTable(t, rs[i].id, key, newId);
    SplitKeyIsFresh(t, rs, i, key);
    assert r in rs && t'.byId[newId].start == key;
    var lost := if newId == r.id then LeftOf(r, key) else t.byId[newId];
    assert lost.start in t'.byKey && t'.byKey[lost.start] == lost && lost.id == newId && lost.start != key;
  }

  /** Exactly one region contains the key, and routing returns that one. */
  ghost predicate RoutedUniquely(t: Table, rs: seq<Region>, key: Key) {
    exists i: nat :: OnlyOne(rs, i, key) && Route(t, key) == Ok(rs[i])
  }

  /** From the first region on, after any run of split requests, both indexes hold the same regions,
      every key lies in exactly one of them, routing returns it, and there is one region more than
      the epochs count splits. */
  lemma RouterPartitions(nodeId: u64, asks: seq<Ask>) returns (rs: seq<Region>)
    requires FreshIds(NewNode(nodeId), asks)
    ensures var t := AfterAsks(NewNode(nodeId), asks).table;
            && Tiles(t, rs) && |t.byId| == |t.byKey| == 1 + SplitCount(rs)
            && forall key :: RoutedUniquely(t, rs, key)
  {
    hide Route, AfterAsks, SplitCount, Less, Tiles, NewNode, FreshIds;
    var first := [FirstRegion(nodeId)];
    FirstTiles(nodeId);
    rs := AsksTile(NewNode(nodeId), first, asks);
    var t := AfterAsks(NewNode(nodeId), asks).table;
    forall key ensures RoutedUniquely(t, rs, key) {
      var i := RouteIsUnique(t, rs, key);
      assert OnlyOne(rs, i, key) && Route(t, key) == Ok(rs[i]);
    }
  }

  lemma FirstTiles(nodeId: u64)
    ensures NodeTiles(NewNode(nodeId), [FirstRegion(nodeId)]) && NewNode(nodeId).nextId == 2
  {
    var r := FirstRegion(nodeId);
    assert [r][1..] == [] && SplitCount([r]) == 0;
    assert NewNode(nodeId).table.byId.Keys == {1} && NewNode(nodeId).table.byKey.Keys == {[]};
  }

  // ---------- The router object ----------

  class RegionRouter {
    var byId: map<u64, Region>
    var byKey: map<Key, Region>

    function Contents(): Table
      reads this
    {
      Table(byId, byKey)
    }

    constructor ()
      ensures Contents() == NO_REGIONS
    {
      byId, byKey := map[], map[];
    }

    method InsertRegion(region: Region)
      modifies this
      ensures Contents() == Insert(old(Contents()), region)
    {
      byId := byId[region.id := region];
      byKey := byKey[region.start := region];
    }

    /** Walks the regions by start key, the last one first. */
    method RouteKey(key: Key) returns (r: Result<Region, RouterError>)
      ensures r == Route(Contents(), key)
    {
      hide Less, Sorted, StrictOrder, Ascending;
      LessIsOrder();
      var starts := Sorted(byKey.Keys, Less);
      var i := |starts|;
      assert starts[..i] == starts;
      while i > 0
        invariant 0 <= i <= |starts|
        invariant forall k | k in starts[..i] :: k in byKey
        invariant Route(Contents(), key) == RouteAmong(Contents(), starts[..i], key)
      {
        i := i - 1;
        assert starts[..i + 1][..i] == starts[..i] && starts[..i + 1][i] == starts[i];
        if byKey[starts[i]].Contains(key) {
          return Ok(byKey[starts[i]]);
        }
      }
      r := Err(RegionNotFound(key));
    }

    method SplitRegion(id: u64, key: Key, newId: u64) returns (r: Result<(Region, Region), RouterError>)
      modifies this
      ensures match SplitError(old(Contents()), id, key)
              case Some(e) => r == Err(e) && Contents() == old(Contents())
              case None => && Contents() == SplitTable(old(Contents()), id, key, newId)
                           && r == Ok((LeftOf(old(byId)[id], key), RightOf(old(byId)[id], key, newId)))
    {
      if id !in byId {
        return Err(RegionIdNotFound(id));
      }
      var region := byId[id];
      if !region.Contains(key) || key == region.start {
        return Err(RegionNotFound(key));
      }
      byKey := byKey - {region.start};
      var left := Region(region.id, region.start, key, region.peers,
                         Epoch(region.epoch.confVer, region.epoch.version + 1));
      var right := Region(newId, key, region.end, region.peers, Epoch(region.epoch.confVer, 1));
      byId := byId[left.id := left];
      byId := byId[right.id := right];
      byKey := byKey[left.start := left];
      byKey := byKey[right.start := right];
      r := Ok((left, right));
    }
  }
}
