/** The names under which a region's Raft entries are stored (raft-engine/store.rs). */
module EntryKeys {
  import opened Bytes
  import opened Ordered

  const UNDERSCORE: byte := 95
  const R_ENTRY: Bytes := [114, 95, 101, 110, 116, 114, 121, 95]   // "r_entry_"
  const R_HS: Bytes := [114, 95, 104, 115, 95]                     // "r_hs_"
  const R_CS: Bytes := [114, 95, 99, 115, 95]                      // "r_cs_"

  predicate IsDigit(b: byte) {
    48 <= b <= 57
  }

  /** Decimal digits without padding. */
  function Decimal(n: nat): (d: Bytes)
    ensures |d| > 0 && forall i | 0 <= i < |d| :: IsDigit(d[i])
  {
    if n < 10 then [48 + n] else Decimal(n / 10) + [48 + n % 10]
  }

  function Pow10(width: nat): (p: nat)
    ensures p > 0
  {
    if width == 0 then 1 else 10 * Pow10(width - 1)
  }

  /** Decimal digits padded with zeros to the width. */
  function Padded(n: nat, width: nat): (d: Bytes)
    ensures |d| == width
  {
    if width == 0 then [] else Padded(n / 10, width - 1) + [48 + n % 10]
  }

  function EntryPrefix(region: u64): Bytes {
    R_ENTRY + Decimal(region) + [UNDERSCORE]
  }

  function EntryKey(region: u64, index: u64): Bytes {
    EntryPrefix(region) + Padded(index, 20)
  }

  function HardStateKey(region: u64): Bytes {
    R_HS + Decimal(region)
  }

  function ConfStateKey(region: u64): Bytes {
    R_CS + Decimal(region)
  }

  lemma IndexFits(index: u64)
    ensures index < Pow10(20)
  {
    assert Pow10(5) == 10 * (10 * (10 * (10 * (10 * Pow10(0)))));
    assert Pow10(10) == 10 * (10 * (10 * (10 * (10 * Pow10(5)))));
    assert Pow10(15) == 10 * (10 * (10 * (10 * (10 * Pow10(10)))));
    assert Pow10(20) == 10 * (10 * (10 * (10 * (10 * Pow10(15)))));
  }

  lemma {:induction false} PaddedOrder(m: nat, n: nat, width: nat)
    requires m < Pow10(width) && n < Pow10(width)
    ensures Less(Padded(m, width), Padded(n, width)) <==> m < n
    ensures Padded(m, width) == Padded(n, width) <==> m == n
    decreases width
  {
    hide Less;
    if width > 0 {
      var m', n' := m / 10, n / 10;
      PaddedOrder(m', n', width - 1);
      LessLastByte(Padded(m', width - 1), Padded(n', width - 1), 48 + m % 10, 48 + n % 10);
      var a, b := Padded(m, width), Padded(n, width);
      assert a[..width - 1] == Padded(m', width - 1) && a[width - 1] == 48 + m % 10;
      assert b[..width - 1] == Padded(n', width - 1) && b[width - 1] == 48 + n % 10;
    } else {
      LessIrreflexive([]);
    }
  }

  lemma {:induction false} DecimalInjective(m: nat, n: nat)
    ensures Decimal(m) == Decimal(n) ==> m == n
  {
    if Decimal(m) == Decimal(n) {
      var d := Decimal(m);
      if m >= 10 && n >= 10 {
        assert d[..|d| - 1] == Decimal(m / 10) && d[..|d| - 1] == Decimal(n / 10);
        DecimalInjective(m / 10, n / 10);
        assert d[|d| - 1] == 48 + m % 10 && d[|d| - 1] == 48 + n % 10;
      }
    }
  }

  /** Keys of one region are ordered by index. */
  lemma EntryOrder(region: u64, i: u64, j: u64)
    ensures Less(EntryKey(region, i), EntryKey(region, j)) <==> i < j
    ensures EntryKey(region, i) == EntryKey(region, j) <==> i == j
  {
    hide Less, Padded, EntryPrefix;
    IndexFits(i);
    IndexFits(j);
    LessAfterCommonFront(EntryPrefix(region), Padded(i, 20), Padded(j, 20));
    PaddedOrder(i, j, 20);
    var p := |EntryPrefix(region)|;
    assert EntryKey(region, i)[p..] == Padded(i, 20) && EntryKey(region, j)[p..] == Padded(j, 20);
  }

  /** Two digit strings, each closed by an underscore, agree as far as the first one goes only if they
      are the same. */
  lemma ClosedDigits(a: Bytes, b: Bytes, rest: Bytes)
    requires (forall i | 0 <= i < |a| :: IsDigit(a[i])) && forall i | 0 <= i < |b| :: IsDigit(b[i])
    requires IsPrefix(a + [UNDERSCORE], b + [UNDERSCORE] + rest)
    ensures a == b
  {
    var x, y := a + [UNDERSCORE], b + [UNDERSCORE] + rest;
    if |a| < |b| {
      PrefixAt(x, y, |a|);
    } else if |b| < |a| {
      PrefixAt(x, y, |b|);
    } else {
      assert a == y[..|x|][..|a|] == b;
    }
  }

  lemma PrefixAt(p: Bytes, k: Bytes, i: nat)
    requires IsPrefix(p, k) && i < |p|
    ensures p[i] == k[i]
  {
    assert p[i] == k[..|p|][i];
  }

  /** No two regions share a name, and hard and configuration state never do. */
  lemma StateKeysApart(a: u64, b: u64)
    ensures HardStateKey(a) != ConfStateKey(b)
    ensures HardStateKey(a) == HardStateKey(b) <==> a == b
    ensures ConfStateKey(a) == ConfStateKey(b) <==> a == b
  {
    assert HardStateKey(a)[2] == 104 && ConfStateKey(b)[2] == 99;
    DecimalInjective(a, b);
    assert HardStateKey(a)[5..] == Decimal(a) && HardStateKey(b)[5..] == Decimal(b);
    assert ConfStateKey(a)[5..] == Decimal(a) && ConfStateKey(b)[5..] == Decimal(b);
  }

  /** A reload of one region picks up no entry of another, and no hard or configuration state. */
  lemma RegionsApart(a: u64, b: u64, index: u64)
    ensures IsPrefix(EntryPrefix(a), EntryKey(b, index)) <==> a == b
    ensures !IsPrefix(EntryPrefix(a), HardStateKey(b)) && !IsPrefix(EntryPrefix(a), ConfStateKey(b))
  {
    hide Padded;
    var p, k := EntryPrefix(a), EntryKey(b, index);
    if a == b {
      assert k[..|p|] == p;
    }
    if IsPrefix(p, k) {
      var x, y := Decimal(a) + [UNDERSCORE], Decimal(b) + [UNDERSCORE] + Padded(index, 20);
      assert p == R_ENTRY + x && k == R_ENTRY + y;
      assert y[..|x|] == k[..|p|][8..] && p[8..] == x;
      ClosedDigits(Decimal(a), Decimal(b), Padded(index, 20));
      DecimalInjective(a, b);
    }
    assert p[2] == 101 && HardStateKey(b)[2] == 104 && ConfStateKey(b)[2] == 99;
    if IsPrefix(p, HardStateKey(b)) { PrefixAt(p, HardStateKey(b), 2); }
    if IsPrefix(p, ConfStateKey(b)) { PrefixAt(p, ConfStateKey(b), 2); }
  }

  /** The strings with a given prefix are an interval of the byte order that starts at the prefix. */
  lemma {:induction false} PrefixInterval(p: Bytes, a: Bytes, b: Bytes)
    requires IsPrefix(p, b) && Leq(p, a) && Leq(a, b)
    ensures IsPrefix(p, a)
  {
    if p != [] && a != b && a != p {
      assert p[0] == b[..|p|][0] == b[0];
      assert a[0] == p[0];
      assert b[1..][..|p| - 1] == b[..|p|][1..] == p[1..];
      PrefixInterval(p[1..], a[1..], b[1..]);
      assert a[..|p|] == [a[0]] + a[1..][..|p| - 1] && p == [p[0]] + p[1..];
    } else if a == p {
      assert a[..|p|] == p;
    }
  }

  lemma PrefixIsLeq(p: Bytes, k: Bytes)
    requires IsPrefix(p, k)
    ensures Leq(p, k)
    decreases |p|
  {
    if p == [] {
    } else {
      assert p[0] == k[..|p|][0] == k[0];
      assert k[1..][..|p| - 1] == k[..|p|][1..] == p[1..];
      PrefixIsLeq(p[1..], k[1..]);
      assert p == [p[0]] + p[1..] && k == [k[0]] + k[1..];
    }
  }
}

/** The Raft log of a region: the vector in memory and its image on disk (raft-engine/store.rs). */
module RaftLog {
  import opened Bytes
  import opened Ordered
  import opened Wrappers
  import opened EntryKeys

  datatype Entry = Entry(index: u64, term: u64, data: Bytes)
  datatype HardState = HardState(term: u64, vote: u64, commit: u64)
  datatype ConfState = ConfState(voters: seq<u64>, learners: seq<u64>)

  /** A stored value, told apart by what it parses as. */
  datatype Blob =
    | EntryBlob(entry: Entry)
    | HardBlob(hard: HardState)
    | ConfBlob(conf: ConfState)
    | OtherBlob(bytes: Bytes)

  type Disk = map<Bytes, Blob>

  datatype StorageError = Compacted | Unavailable

  const DUMMY := Entry(0, 0, [])

  // ---------- Appending ----------

  /** Truncate the vector at the first new index, if it reaches that far, and extend it. */
  function Appended(es: seq<Entry>, more: seq<Entry>): seq<Entry>
    requires es != [] && more != [] && es[0].index <= more[0].index
  {
    var diff := more[0].index - es[0].index;
    (if |es| > diff then es[..diff] else es) + more
  }

  function Persisted(disk: Disk, region: u64, es: seq<Entry>): Disk {
    if es == [] then disk
    else
      var last := es[|es| - 1];
      Persisted(disk, region, es[..|es| - 1])[EntryKey(region, last.index) := EntryBlob(last)]
  }

  ghost predicate GapFree(es: seq<Entry>) {
    es != [] && forall i | 0 <= i < |es| :: es[i].index == es[0].index + i
  }

  function LastIndexOf(es: seq<Entry>): u64
    requires es != []
  {
    es[|es| - 1].index
  }

  /** The log as a partial function of the index. */
  function EntryAt(es: seq<Entry>, index: u64): Option<Entry>
    requires es != []
  {
    if es[0].index <= index < es[0].index + |es| then Some(es[index - es[0].index]) else None
  }

  /** An append keeps the vector free of gaps exactly when the new entries have none and start no
      later than right after the last one. */
  lemma AppendGapFreeExactly(es: seq<Entry>, more: seq<Entry>)
    requires GapFree(es) && more != [] && es[0].index <= more[0].index
    ensures GapFree(Appended(es, more)) <==> GapFree(more) && more[0].index <= LastIndexOf(es) + 1
  {
    var r := Appended(es, more);
    var diff := more[0].index - es[0].index;
    var kept := if |es| > diff then diff else |es|;
    assert forall j | 0 <= j < |more| :: r[kept + j] == more[j];
    assert forall j | 0 <= j < kept :: r[j] == es[j];
    if GapFree(r) {
      assert r[kept].index == r[0].index + kept;
      if kept > 0 {
        assert r[0] == es[0];
      }
      forall j | 0 <= j < |more| ensures more[j].index == more[0].index + j {
        assert r[kept + j].index == r[0].index + kept + j;
      }
    }
  }

  /** Below the first new index the log is what it was, from there on it is the new entries, and
      nothing follows them. */
  lemma AppendIsTruncateThenExtend(es: seq<Entry>, more: seq<Entry>, index: u64)
    requires GapFree(es) && GapFree(more) && es[0].index <= more[0].index <= LastIndexOf(es) + 1
    ensures GapFree(Appended(es, more))
    ensures EntryAt(Appended(es, more), index) ==
            if index < more[0].index then EntryAt(es, index) else EntryAt(more, index)
  {
    AppendGapFreeExactly(es, more);
  }

  // ---------- Reading ----------

  /** The checks refuse the range, or it lies within the vector: anything else panics. */
  predicate Sliceable(es: seq<Entry>, low: u64, high: u64)
    requires es != []
  {
    || low < es[0].index || high > (LastIndexOf(es) + 1) % TWO_64
    || (low <= high && high - es[0].index <= |es|)
  }

  /** The bound last + 1 is computed in 64 bits. */
  function EntriesIn(es: seq<Entry>, low: u64, high: u64): Result<seq<Entry>, StorageError>
    requires es != [] && Sliceable(es, low, high)
  {
    if low < es[0].index then Err(Compacted)
    else if high > (LastIndexOf(es) + 1) % TWO_64 then Err(Unavailable)
    else Ok(es[low - es[0].index..high - es[0].index])
  }

  function TermAt(es: seq<Entry>, index: u64): Result<u64, StorageError>
    requires es != []
  {
    if index < es[0].index then Err(Compacted)
    else if index - es[0].index >= |es| then Err(Unavailable)
    else Ok(es[index - es[0].index].term)
  }

  /** Range reads and terms are those of the log, and fail exactly outside it; a log that ends at the
      last 64-bit index serves only the empty range at 0. */
  lemma ReadsAgree(es: seq<Entry>, low: u64, high: u64, index: u64)
    requires GapFree(es) && low <= high
    ensures Sliceable(es, low, high)
    ensures EntriesIn(es, low, high).Ok? <==>
            es[0].index <= low && high <= LastIndexOf(es) + 1 && (LastIndexOf(es) + 1 < TWO_64 || high == 0)
    ensures EntriesIn(es, low, high).Ok? && low <= index < high ==>
              && |EntriesIn(es, low, high).value| == high - low
              && EntryAt(es, index) == Some(EntriesIn(es, low, high).value[index - low])
    ensures TermAt(es, index).Ok? <==> EntryAt(es, index).Some?
    ensures TermAt(es, index).Ok? ==> TermAt(es, index).value == EntryAt(es, index).value.term
  {
  }

  /** A range read is refused as compacted exactly when it starts below every entry, and otherwise as
      unavailable exactly when it ends beyond the last one; the bound past the last 64-bit index is 0. */
  lemma EntriesRefusedExactly(es: seq<Entry>, low: u64, high: u64)
    requires GapFree(es) && Sliceable(es, low, high)
    ensures EntriesIn(es, low, high) == Err(Compacted) <==> forall e | e in es :: low < e.index
    ensures EntriesIn(es, low, high) == Err(Unavailable) <==>
            && (exists e :: e in es && e.index <= low)
            && if LastIndexOf(es) == TWO_64 - 1 then high > 0 else forall e | e in es :: e.index + 1 < high
  {
    var last := es[|es| - 1];
    assert es[0] in es && last in es;
    forall e | e in es ensures es[0].index <= e.index <= last.index { var i :| 0 <= i < |es| && es[i] == e; }
  }

  /** The term of an index is refused as compacted exactly below every entry, and as unavailable exactly
      beyond every entry; otherwise it is that of the one entry with the index. */
  lemma TermExactly(es: seq<Entry>, index: u64)
    requires GapFree(es)
    ensures TermAt(es, index) == Err(Compacted) <==> forall e | e in es :: index < e.index
    ensures TermAt(es, index) == Err(Unavailable) <==> forall e | e in es :: e.index < index
    ensures forall e | e in es && e.index == index :: TermAt(es, index) == Ok(e.term)
  {
    assert es[0] in es && es[|es| - 1] in es;
    forall e | e in es ensures es[0].index <= e.index <= es[|es| - 1].index { var i :| 0 <= i < |es| && es[i] == e; }
    forall e | e in es && e.index == index ensures TermAt(es, index) == Ok(e.term) {
      var i :| 0 <= i < |es| && es[i] == e;
    }
  }

  // ---------- The image on disk ----------

  /** What an append leaves under a key. */
  lemma {:induction false} PersistedAt(disk: Disk, region: u64, es: seq<Entry>, k: Bytes)
    requires GapFree(es)
    ensures forall j | 0 <= j < |es| ::
              && EntryKey(region, es[j].index) in Persisted(disk, region, es)
              && Persisted(disk, region, es)[EntryKey(region, es[j].index)] == EntryBlob(es[j])
    ensures (forall j | 0 <= j < |es| :: k != EntryKey(region, es[j].index)) ==>
              && (k in Persisted(disk, region, es) <==> k in disk)
              && (k in disk ==> Persisted(disk, region, es)[k] == disk[k])
    decreases |es|
  {
    hide EntryKey;
    var n := |es| - 1;
    var last := es[n];
    forall j | 0 <= j < n ensures EntryKey(region, es[j].index) != EntryKey(region, last.index) {
      EntryOrder(region, es[j].index, last.index);
    }
    if n > 0 {
      PersistedAt(disk, region, es[..n], k);
      assert forall j | 0 <= j < n :: es[..n][j] == es[j];
    } else {
      assert es[..n] == [];
    }
  }

  ghost predicate StoredAt(disk: Disk, region: u64, i: u64) {
    && EntryKey(region, i) in disk
    && disk[EntryKey(region, i)].EntryBlob?
    && disk[EntryKey(region, i)].entry.index == i
  }

  /** A key of the region is one of the names of the indexes 1 to max. */
  ghost predicate Named(region: u64, max: u64, k: Bytes) {
    exists i: u64 :: 1 <= i <= max && k == EntryKey(region, i)
  }

  /** The region's part of the disk is exactly the indexes 1 to max, and those still in the log hold
      what the log holds.  The log starts at the dummy or, once reopened, at its first entry. */
  ghost predicate Synced(es: seq<Entry>, disk: Disk, region: u64, max: u64) {
    && GapFree(es) && es[0].index <= 1 && LastIndexOf(es) <= max
    && (forall k | k in disk && IsPrefix(EntryPrefix(region), k) :: Named(region, max, k))
    && (forall i: u64 | 1 <= i <= max :: StoredAt(disk, region, i))
    && (forall i | 0 <= i < |es| && es[i].index >= 1 :: InLog(es, disk, region, i))
  }

  ghost predicate InLog(es: seq<Entry>, disk: Disk, region: u64, i: nat)
    requires i < |es|
  {
    EntryKey(region, es[i].index) in disk && disk[EntryKey(region, es[i].index)] == EntryBlob(es[i])
  }

  function Max(a: u64, b: u64): u64 {
    if a >= b then a else b
  }

  /** What the caller promises of an append: entries without gaps, from an index at or above the base,
      but not the dummy's, and at most right after the last one. */
  ghost predicate Admissible(es: seq<Entry>, more: seq<Entry>) {
    es != [] && GapFree(more) && 1 <= more[0].index && es[0].index <= more[0].index <= LastIndexOf(es) + 1
  }

  lemma SyncedStep(es: seq<Entry>, disk: Disk, region: u64, max: u64, more: seq<Entry>)
    requires Synced(es, disk, region, max) && Admissible(es, more)
    ensures Synced(Appended(es, more), Persisted(disk, region, more), region, Max(max, LastIndexOf(more)))
  {
    hide EntryKey, EntryPrefix, Persisted, IsPrefix;
    var r, d, m := Appended(es, more), Persisted(disk, region, more), Max(max, LastIndexOf(more));
    AppendGapFreeExactly(es, more);
    forall k | k in d && IsPrefix(EntryPrefix(region), k) ensures Named(region, m, k) {
      PersistedAt(disk, region, more, k);
      if j :| 0 <= j < |more| && k == EntryKey(region, more[j].index) {
        assert 1 <= more[j].index <= m;
      } else {
        assert Named(region, max, k);
      }
    }
    forall i: u64 | 1 <= i <= m ensures StoredAt(d, region, i) {
      StoredStep(disk, region, max, more, i);
    }
    forall i | 0 <= i < |r| && r[i].index >= 1 ensures InLog(r, d, region, i) {
      var diff := more[0].index - es[0].index;
      PersistedAt(disk, region, more, EntryKey(region, r[i].index));
      if i < diff {
        assert r[i] == es[i] && InLog(es, disk, region, i);
        forall j | 0 <= j < |more| ensures EntryKey(region, r[i].index) != EntryKey(region, more[j].index) {
          EntryOrder(region, r[i].index, more[j].index);
        }
      } else {
        assert r[i] == more[i - diff];
      }
    }
  }

  lemma StoredStep(disk: Disk, region: u64, max: u64, more: seq<Entry>, i: u64)
    requires GapFree(more) && 1 <= more[0].index <= max + 1
    requires forall j: u64 | 1 <= j <= max :: StoredAt(disk, region, j)
    requires 1 <= i <= Max(max, LastIndexOf(more))
    ensures StoredAt(Persisted(disk, region, more), region, i)
  {
    hide EntryKey, Persisted;
    PersistedAt(disk, region, more, EntryKey(region, i));
    if more[0].index <= i <= LastIndexOf(more) {
      assert more[i - more[0].index].index == i;
    } else {
      forall j | 0 <= j < |more| ensures EntryKey(region, i) != EntryKey(region, more[j].index) {
        EntryOrder(region, i, more[j].index);
      }
      assert StoredAt(disk, region, i);
    }
  }

  // ---------- Reloading ----------

  /** The constructor's loop: stop at the first key without the prefix, skip what does not parse. */
  function Parsed(disk: Disk, ks: seq<Bytes>, prefix: Bytes): seq<Entry>
    requires forall k | k in ks :: k in disk
  {
    if ks == [] || !IsPrefix(prefix, ks[0]) then []
    else (if disk[ks[0]].EntryBlob? then [disk[ks[0]].entry] else []) + Parsed(disk, ks[1..], prefix)
  }

  function KeysFrom(disk: Disk, prefix: Bytes): set<Bytes> {
    set k | k in disk && Leq(prefix, k)
  }

  ghost function Reload(disk: Disk, region: u64): (r: seq<Entry>)
    ensures r != []
  {
    LessIsOrder();
    var es := Parsed(disk, Sorted(KeysFrom(disk, EntryPrefix(region)), Less), EntryPrefix(region));
    if es == [] then [DUMMY] else es
  }

  lemma {:induction false} ParsedAt(disk: Disk, own: seq<Bytes>, others: seq<Bytes>, prefix: Bytes, i: nat)
    requires forall k | k in own + others :: k in disk
    requires forall j | 0 <= j < |own| :: IsPrefix(prefix, own[j]) && disk[own[j]].EntryBlob?
    requires others != [] ==> !IsPrefix(prefix, others[0])
    ensures |Parsed(disk, own + others, prefix)| == |own|
    ensures i < |own| ==> Parsed(disk, own + others, prefix)[i] == disk[own[i]].entry
    decreases |own|
  {
    hide IsPrefix;
    if own == [] {
      assert own + others == others;
    } else {
      assert own[0] in own + others;
      assert (own + others)[1..] == own[1..] + others;
      ParsedAt(disk, own[1..], others, prefix, if i == 0 then 0 else i - 1);
    }
  }

  ghost function Names(region: u64, max: u64): (ns: seq<Bytes>)
    ensures |ns| == max && forall i | 0 <= i < |ns| :: ns[i] == EntryKey(region, i + 1)
  {
    seq(max, i requires 0 <= i < max => EntryKey(region, i + 1))
  }

  lemma NamesAscend(region: u64, max: u64)
    ensures Ascending(Names(region, max), Less)
  {
    hide EntryKey, Less;
    forall i, j | 0 <= i < j < max ensures Less(Names(region, max)[i], Names(region, max)[j]) {
      EntryOrder(region, i + 1, j + 1);
    }
  }

  /** In key order the keys with the prefix come first. */
  lemma OwnKeysFirst(own: seq<Bytes>, others: seq<Bytes>, prefix: Bytes)
    requires Ascending(own, Less) && Ascending(others, Less)
    requires forall k | k in own :: IsPrefix(prefix, k)
    requires forall k | k in others :: !IsPrefix(prefix, k) && Leq(prefix, k)
    ensures Ascending(own + others, Less)
  {
    hide IsPrefix, Less;
    forall i, j | 0 <= i < |own| && 0 <= j < |others| ensures Less(own[i], others[j]) {
      assert own[i] in own && others[j] in others;
      LessTotal(own[i], others[j]);
      if Leq(others[j], own[i]) { PrefixInterval(prefix, others[j], own[i]); }
    }
    var r := own + others;
    forall i, j | 0 <= i < j < |r| ensures Less(r[i], r[j]) {
      if i < |own| <= j { assert Less(own[i], others[j - |own|]); }
    }
  }

  /** A scan from the prefix meets the region's names in index order, and then only foreign keys. */
  lemma ScanSplits(disk: Disk, region: u64, max: u64) returns (others: seq<Bytes>)
    requires forall k | k in disk && IsPrefix(EntryPrefix(region), k) :: Named(region, max, k)
    requires forall i: u64 | 1 <= i <= max :: StoredAt(disk, region, i)
    ensures StrictOrder(Less)
    ensures Sorted(KeysFrom(disk, EntryPrefix(region)), Less) == Names(region, max) + others
    ensures forall k | k in others :: k in disk && !IsPrefix(EntryPrefix(region), k)
  {
    hide IsPrefix, Less, EntryKey, EntryPrefix, Leq;
    LessIsOrder();
    var prefix := EntryPrefix(region);
    var own := Names(region, max);
    var apart := set k | k in disk && Leq(prefix, k) && !IsPrefix(prefix, k);
    others := Sorted(apart, Less);
    forall i | 0 <= i < max ensures IsPrefix(prefix, own[i]) && Leq(prefix, own[i]) && own[i] in disk {
      RegionsApart(region, region, i + 1);
      PrefixIsLeq(prefix, own[i]);
      assert StoredAt(disk, region, i + 1);
    }
    forall k | k in disk && IsPrefix(prefix, k) ensures k in own {
      assert Named(region, max, k);
      var i: u64 :| 1 <= i <= max && k == EntryKey(region, i);
      assert own[i - 1] == k;
    }
    NamesAscend(region, max);
    OwnKeysFirst(own, others, prefix);
    AscendingUnique(Sorted(KeysFrom(disk, prefix), Less), own + others, Less);
  }

  /** A reload reads every index ever written, in order, with the last entry written for it. */
  lemma ReloadReadsAll(disk: Disk, region: u64, max: u64, i: nat)
    requires forall k | k in disk && IsPrefix(EntryPrefix(region), k) :: Named(region, max, k)
    requires forall i: u64 | 1 <= i <= max :: StoredAt(disk, region, i)
    ensures max == 0 ==> Reload(disk, region) == [DUMMY]
    ensures max > 0 ==> |Reload(disk, region)| == max
    ensures i < max ==> StoredAt(disk, region, i + 1) && Reload(disk, region)[i] == disk[EntryKey(region, i + 1)].entry
  {
    hide IsPrefix, Less, EntryKey, EntryPrefix, Leq, Parsed, Names, Named, KeysFrom, Sorted, StrictOrder, Ascending;
    var others := ScanSplits(disk, region, max);
    var prefix, own := EntryPrefix(region), Names(region, max);
    forall j | 0 <= j < max ensures IsPrefix(prefix, own[j]) && StoredAt(disk, region, j + 1) {
      RegionsApart(region, region, j + 1);
    }
    assert others != [] ==> others[0] in others;
    assert forall k | k in own :: exists j :: 0 <= j < max && own[j] == k;
    ParsedAt(disk, own, others, prefix, i);
  }

  /** A region without entries opens with index 0 at term 0 and nothing after it, and a region that was never
      written with its states at zero and without voters. */
  lemma FreshLogReads(disk: Disk, region: u64, index: u64)
    requires forall k | k in disk :: !IsPrefix(EntryPrefix(region), k)
    ensures TermAt(Reload(disk, region), index) == if index == 0 then Ok(0) else Err(Unavailable)
    ensures LastIndexOf(Reload(disk, region)) == 0
    ensures disk == map[] ==>
              StoredHardState(disk, region) == HardState(0, 0, 0) && StoredConfState(disk, region) == ConfState([], [])
  {
    hide IsPrefix, EntryPrefix, Reload;
    ReloadReadsAll(disk, region, 0, 0);
  }

  /** The vector without its dummy, which a reload restores only for an empty log. */
  function Durable(es: seq<Entry>): seq<Entry>
    requires es != []
  {
    if es[0].index > 0 then es else if |es| == 1 then [DUMMY] else es[1..]
  }

  /** A reload gives the log back exactly when no index beyond its end was ever written. */
  lemma ReloadExactly(es: seq<Entry>, disk: Disk, region: u64, max: u64)
    requires Synced(es, disk, region, max)
    ensures Reload(disk, region) == Durable(es) <==> max == LastIndexOf(es)
  {
    hide EntryKey, EntryPrefix, Reload;
    ReloadReadsAll(disk, region, max, 0);
    if max == LastIndexOf(es) && max > 0 {
      var r, base := Reload(disk, region), es[0].index;
      forall i | 0 <= i < max ensures r[i] == es[i + 1 - base] {
        ReloadReadsAll(disk, region, max, i);
        assert InLog(es, disk, region, i + 1 - base);
      }
      assert r == Durable(es);
    }
  }

  /** Reopening keeps log and disk in step, and puts the end of the log at the highest index written. */
  lemma ReopenSynced(es: seq<Entry>, disk: Disk, region: u64, max: u64)
    requires Synced(es, disk, region, max)
    ensures Synced(Reload(disk, region), disk, region, max) && LastIndexOf(Reload(disk, region)) == max
  {
    hide EntryKey, EntryPrefix, Reload, IsPrefix;
    var r := Reload(disk, region);
    ReloadReadsAll(disk, region, max, 0);
    forall i: nat | i < max ensures r[i].index == i + 1 && InLog(r, disk, region, i) {
      ReloadReadsAll(disk, region, max, i);
    }
  }

  // ---------- Runs ----------

  datatype Log = Log(entries: seq<Entry>, disk: Disk)

  /** One event: an append to this log, any other write to the shared partition, such as a hard state
      or an append of another region, or a restart that reopens the log from disk. */
  datatype Event = Append(more: seq<Entry>) | Other(key: Bytes, blob: Blob) | Reopen

  /** Appends are admissible, and nobody else writes under the region's prefix. */
  ghost predicate May(l: Log, region: u64, e: Event) {
    match e
    case Append(more) => Admissible(l.entries, more)
    case Other(k, _) => !IsPrefix(EntryPrefix(region), k)
    case Reopen => true
  }

  ghost function Next(l: Log, region: u64, e: Event): (r: Log)
    requires l.entries != [] && May(l, region, e)
    ensures r.entries != []
  {
    match e
    case Append(more) => Log(Appended(l.entries, more), Persisted(l.disk, region, more))
    case Other(k, b) => Log(l.entries, l.disk[k := b])
    case Reopen => Log(Reload(l.disk, region), l.disk)
  }

  ghost predicate AdmissibleRun(l: Log, region: u64, es: seq<Event>)
    requires l.entries != []
    decreases |es|
  {
    es != [] ==> May(l, region, es[0]) && AdmissibleRun(Next(l, region, es[0]), region, es[1..])
  }

  ghost function AfterRun(l: Log, region: u64, es: seq<Event>): (r: Log)
    requires l.entries != [] && AdmissibleRun(l, region, es)
    ensures r.entries != []
    decreases |es|
  {
    if es == [] then l else AfterRun(Next(l, region, es[0]), region, es[1..])
  }

  /** The greatest index any of the appends wrote. */
  function HighWater(max: u64, es: seq<Event>): u64
    decreases |es|
  {
    if es == [] then max
    else if es[0].Append? && es[0].more != [] then HighWater(Max(max, LastIndexOf(es[0].more)), es[1..])
    else HighWater(max, es[1..])
  }

  lemma OtherKeepsSynced(es: seq<Entry>, disk: Disk, region: u64, max: u64, k: Bytes, b: Blob)
    requires Synced(es, disk, region, max) && !IsPrefix(EntryPrefix(region), k)
    ensures Synced(es, disk[k := b], region, max)
  {
    hide EntryKey, EntryPrefix, IsPrefix;
    var d := disk[k := b];
    forall i: u64 ensures EntryKey(region, i) != k { RegionsApart(region, region, i); }
    assert forall i: u64 | 1 <= i <= max :: StoredAt(disk, region, i) ==> StoredAt(d, region, i);
    assert forall i | 0 <= i < |es| && es[i].index >= 1 :: InLog(es, disk, region, i) ==> InLog(es, d, region, i);
  }

  ghost predicate InStep(l: Log, region: u64, max: u64) {
    Synced(l.entries, l.disk, region, max)
  }

  lemma EventKeepsStep(l: Log, region: u64, max: u64, e: Event)
    requires InStep(l, region, max) && May(l, region, e)
    ensures InStep(Next(l, region, e), region, HighWater(max, [e]))
    ensures e.Reopen? ==> LastIndexOf(Next(l, region, e).entries) == max
  {
    hide Persisted, EntryPrefix, IsPrefix, Reload;
    assert [e][1..] == [];
    match e
    case Append(more) => SyncedStep(l.entries, l.disk, region, max, more);
    case Other(k, b) => OtherKeepsSynced(l.entries, l.disk, region, max, k, b);
    case Reopen => ReopenSynced(l.entries, l.disk, region, max);
  }

  lemma {:induction false} RunKeepsStep(l: Log, region: u64, max: u64, es: seq<Event>)
    requires l.entries != [] && InStep(l, region, max) && AdmissibleRun(l, region, es)
    ensures InStep(AfterRun(l, region, es), region, HighWater(max, es))
    decreases |es|
  {
    hide May, Next, Synced;
    if es != [] {
      EventKeepsStep(l, region, max, es[0]);
      assert [es[0]][1..] == [];
      RunKeepsStep(Next(l, region, es[0]), region, HighWater(max, [es[0]]), es[1..]);
    }
  }

  /** After any run on a fresh region, with restarts anywhere, the vector has no gap, the disk holds
      every entry of the log, and a reload gives the log back exactly when its end is the highest
      index ever written. */
  lemma LogSurvivesReloadExactly(disk: Disk, region: u64, es: seq<Event>)
    requires forall k | k in disk :: !IsPrefix(EntryPrefix(region), k)
    requires AdmissibleRun(Log([DUMMY], disk), region, es)
    ensures var l := AfterRun(Log([DUMMY], disk), region, es);
            && GapFree(l.entries)
            && (forall i | 0 <= i < |l.entries| && l.entries[i].index >= 1 :: InLog(l.entries, l.disk, region, i))
            && (Reload(l.disk, region) == Durable(l.entries) <==> HighWater(0, es) == LastIndexOf(l.entries))
  {
    hide EntryKey, EntryPrefix, Reload, Next, May;
    RunKeepsStep(Log([DUMMY], disk), region, 0, es);
    var l := AfterRun(Log([DUMMY], disk), region, es);
    ReloadExactly(l.entries, l.disk, region, HighWater(0, es));
  }

  /** No append of the run cuts the log: each starts right after its end. */
  ghost predicate Extending(l: Log, region: u64, es: seq<Event>)
    requires l.entries != [] && AdmissibleRun(l, region, es)
    decreases |es|
  {
    es != [] ==>
      && (es[0].Append? ==> es[0].more[0].index == LastIndexOf(l.entries) + 1)
      && Extending(Next(l, region, es[0]), region, es[1..])
  }

  lemma {:induction false} ExtendingEndsHigh(l: Log, region: u64, es: seq<Event>)
    requires l.entries != [] && InStep(l, region, LastIndexOf(l.entries))
    requires AdmissibleRun(l, region, es) && Extending(l, region, es)
    ensures var l' := AfterRun(l, region, es); InStep(l', region, LastIndexOf(l'.entries))
    decreases |es|
  {
    hide Synced, Persisted, EntryPrefix, IsPrefix, Reload;
    if es != [] {
      EventKeepsStep(l, region, LastIndexOf(l.entries), es[0]);
      assert [es[0]][1..] == [];
      ExtendingEndsHigh(Next(l, region, es[0]), region, es[1..]);
    }
  }

  /** A run that never cuts the log survives a reload. */
  lemma ExtendingSurvivesReload(disk: Disk, region: u64, es: seq<Event>)
    requires forall k | k in disk :: !IsPrefix(EntryPrefix(region), k)
    requires AdmissibleRun(Log([DUMMY], disk), region, es) && Extending(Log([DUMMY], disk), region, es)
    ensures var l := AfterRun(Log([DUMMY], disk), region, es); Reload(l.disk, region) == Durable(l.entries)
  {
    hide EntryKey, EntryPrefix, Reload, Next, May;
    ExtendingEndsHigh(Log([DUMMY], disk), region, es);
    var l := AfterRun(Log([DUMMY], disk), region, es);
    ReloadExactly(l.entries, l.disk, region, LastIndexOf(l.entries));
  }

  /** Two entries of term 1, then one of term 2 in place of the first: the cut second entry is still
      on disk, and a restart brings it back. */
  lemma CutEntryComesBack(region: u64)
    ensures var old1, old2, new1 := Entry(1, 1, []), Entry(2, 1, []), Entry(1, 2, []);
            var es := [Append([old1, old2]), Append([new1])];
            && AdmissibleRun(Log([DUMMY], map[]), region, es)
            && var l := AfterRun(Log([DUMMY], map[]), region, es);
               l.entries == [DUMMY, new1] && Reload(l.disk, region) != Durable(l.entries)
  {
    hide Reload, Persisted;
    var old1, old2, new1 := Entry(1, 1, []), Entry(2, 1, []), Entry(1, 2, []);
    var es := [Append([old1, old2]), Append([new1])];
    var l0 := Log([DUMMY], map[]);
    var l1 := Next(l0, region, es[0]);
    assert l1.entries == [DUMMY, old1, old2];
    var l2 := Next(l1, region, es[1]);
    assert l2.entries == [DUMMY, new1];
    assert es[1..][1..] == [] && AdmissibleRun(l2, region, []) && AdmissibleRun(l1, region, es[1..]);
    assert AfterRun(l1, region, es[1..]) == AfterRun(l2, region, []) == l2;
    assert HighWater(0, es) == HighWater(2, es[1..]) == HighWater(2, es[1..][1..]) == 2;
    LogSurvivesReloadExactly(map[], region, es);
  }

  // ---------- The storage object ----------

  /** The default partition, shared by the storages of all regions. */
  class Partition {
    var blobs: Disk

    constructor ()
      ensures blobs == map[]
    {
      blobs := map[];
    }
  }

  function StoredHardState(disk: Disk, region: u64): HardState {
    var k := HardStateKey(region);
    if k in disk && disk[k].HardBlob? then disk[k].hard else HardState(0, 0, 0)
  }

  function StoredConfState(disk: Disk, region: u64): ConfState {
    var k := ConfStateKey(region);
    if k in disk && disk[k].ConfBlob? then disk[k].conf else ConfState([], [])
  }

  /** The scan of the partition when a storage is opened. */
  method LoadEntries(disk: Disk, region: u64) returns (es: seq<Entry>)
    ensures es == Reload(disk, region)
  {
    hide Less, Leq, IsPrefix, EntryPrefix, Sorted, StrictOrder, Ascending;
    LessIsOrder();
    var prefix := EntryPrefix(region);
    var rest := Sorted(KeysFrom(disk, prefix), Less);
    ghost var ks := rest;
    es := [];
    while rest != []
      invariant forall k | k in rest :: k in disk
      invariant Parsed(disk, ks, prefix) == es + Parsed(disk, rest, prefix)
    {
      if !IsPrefix(prefix, rest[0]) {
        break;
      }
      if disk[rest[0]].EntryBlob? {
        es := es + [disk[rest[0]].entry];
      }
      rest := rest[1..];
    }
    if es == [] {
      es := [DUMMY];
    }
  }

  class RaftStorage {
    const partition: Partition
    const region: u64
    var hardState: HardState
    var confState: ConfState
    var entries: seq<Entry>

    ghost predicate Valid()
      reads this
    {
      entries != []
    }

    constructor (partition: Partition, region: u64)
      ensures Valid() && this.partition == partition && this.region == region
      ensures entries == Reload(partition.blobs, region)
      ensures hardState == StoredHardState(partition.blobs, region)
      ensures confState == StoredConfState(partition.blobs, region)
    {
      var es := LoadEntries(partition.blobs, region);
      this.partition, this.region := partition, region;
      hardState, confState := StoredHardState(partition.blobs, region), StoredConfState(partition.blobs, region);
      entries := es;
    }

    method Append(more: seq<Entry>) returns (r: Result<bool, StorageError>)
      requires Valid()
      modifies this`entries, partition`blobs
      ensures Valid()
      ensures r.Err? <==> more != [] && more[0].index < old(entries)[0].index
      ensures r.Err? ==> r.error == Compacted
      ensures r.Err? || more == [] ==> entries == old(entries) && partition.blobs == old(partition.blobs)
      ensures r.Ok? && more != [] ==>
                && entries == Appended(old(entries), more)
                && partition.blobs == Persisted(old(partition.blobs), region, more)
    {
      if more == [] {
        return Ok(true);
      }
      if more[0].index < entries[0].index {
        return Err(Compacted);
      }
      var diff := more[0].index - entries[0].index;
      if |entries| > diff {
        entries := entries[..diff];
      }
      entries := entries + more;
      var batch := partition.blobs;
      for i := 0 to |more|
        invariant batch == Persisted(old(partition.blobs), region, more[..i])
      {
        assert more[..i + 1][..i] == more[..i];
        batch := batch[EntryKey(region, more[i].index) := EntryBlob(more[i])];
      }
      assert more[..|more|] == more;
      partition.blobs := batch;
      r := Ok(true);
    }

    method SetHardState(hs: HardState)
      modifies this`hardState, partition`blobs
      ensures hardState == hs == StoredHardState(partition.blobs, region)
      ensures partition.blobs == old(partition.blobs)[HardStateKey(region) := HardBlob(hs)]
      ensures forall r: u64 :: StoredConfState(partition.blobs, r) == StoredConfState(old(partition.blobs), r)
      ensures forall r: u64 | r != region ::
                StoredHardState(partition.blobs, r) == StoredHardState(old(partition.blobs), r)
    {
      hide HardStateKey, ConfStateKey;
      forall r: u64
        ensures ConfStateKey(r) != HardStateKey(region) && (r != region ==> HardStateKey(r) != HardStateKey(region))
      {
        StateKeysApart(region, r);
      }
      hardState := hs;
      partition.blobs := partition.blobs[HardStateKey(region) := HardBlob(hs)];
    }

    method SetConfState(cs: ConfState)
      modifies this`confState, partition`blobs
      ensures confState == cs == StoredConfState(partition.blobs, region)
      ensures partition.blobs == old(partition.blobs)[ConfStateKey(region) := ConfBlob(cs)]
      ensures forall r: u64 :: StoredHardState(partition.blobs, r) == StoredHardState(old(partition.blobs), r)
      ensures forall r: u64 | r != region ::
                StoredConfState(partition.blobs, r) == StoredConfState(old(partition.blobs), r)
    {
      hide HardStateKey, ConfStateKey;
      forall r: u64
        ensures HardStateKey(r) != ConfStateKey(region) && (r != region ==> ConfStateKey(r) != ConfStateKey(region))
      {
        StateKeysApart(region, r);
        StateKeysApart(r, region);
      }
      confState := cs;
      partition.blobs := partition.blobs[ConfStateKey(region) := ConfBlob(cs)];
    }

    method Entries(low: u64, high: u64) returns (r: Result<seq<Entry>, StorageError>)
      requires Valid() && Sliceable(entries, low, high)
      ensures r == EntriesIn(entries, low, high)
    {
      var first := entries[0].index;
      if low < first {
        return Err(Compacted);
      }
      if high > (entries[|entries| - 1].index + 1) % TWO_64 {
        return Err(Unavailable);
      }
      r := Ok(entries[low - first..high - first]);
    }

    method Term(index: u64) returns (r: Result<u64, StorageError>)
      requires Valid()
      ensures r == TermAt(entries, index)
    {
      if index < entries[0].index {
        return Err(Compacted);
      }
      var offset := index - entries[0].index;
      if offset >= |entries| {
        return Err(Unavailable);
      }
      r := Ok(entries[offset].term);
    }

    /** The entry at the base is a placeholder: the readable log goes from the first to the last index. */
    method FirstIndex() returns (index: u64)
      requires Valid()
      ensures GapFree(entries) && entries[0].index + 1 < TWO_64 ==>
                forall j: u64 ::
                  index <= j <= LastIndexOf(entries) <==> EntryAt(entries, j).Some? && j != entries[0].index
      ensures entries[0].index + 1 == TWO_64 ==> index == 0
    {
      index := (entries[0].index + 1) % TWO_64;
    }

    method LastIndex() returns (index: u64)
      requires Valid()
      ensures index == LastIndexOf(entries)
      ensures GapFree(entries) ==>
                EntryAt(entries, index).Some? && forall j: u64 | EntryAt(entries, j).Some? :: j <= index
    {
      index := entries[|entries| - 1].index;
    }
  }
}
