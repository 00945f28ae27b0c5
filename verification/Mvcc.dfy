/** The order-inverting codec for versioned keys (storage/mvcc/key.rs). */
module KeyEncoder {
  import opened Bytes
  import opened Ordered
  import opened Wrappers

  type Key = Bytes
  type Ts = u64
  const MAX_TS: Ts := TWO_64 - 1

  datatype Version = Version(key: Key, ts: Ts)

  /** The user key followed by the big-endian complement of the timestamp. */
  function Encode(key: Key, ts: Ts): Bytes {
    key + BigEndian(MAX_TS - ts, 8)
  }

  function Decode(encoded: Bytes): (r: Option<Version>) {
    if |encoded| < 8 then None
    else
      var split := |encoded| - 8;
      Pow256Values();
      Some(Version(encoded[..split], MAX_TS - FromBigEndian(encoded[split..])))
  }

  lemma DecodeEncode(key: Key, ts: Ts)
    ensures Decode(Encode(key, ts)) == Some(Version(key, ts))
  {
    hide BigEndian, FromBigEndian, Pow256;
    var e, tail := Encode(key, ts), BigEndian(MAX_TS - ts, 8);
    assert e[..|key|] == key && e[|key|..] == tail;
    Pow256Values();
    BigEndianRoundTrip(MAX_TS - ts, 8);
  }

  lemma EncodeDecode(encoded: Bytes)
    requires Decode(encoded).Some?
    ensures var v := Decode(encoded).value; Encode(v.key, v.ts) == encoded
  {
    FromBigEndianRoundTrip(encoded[|encoded| - 8..]);
    assert encoded == encoded[..|encoded| - 8] + encoded[|encoded| - 8..];
  }

  lemma EncodeInjective(a: Version, b: Version)
    ensures Encode(a.key, a.ts) == Encode(b.key, b.ts) ==> a == b
  {
    DecodeEncode(a.key, a.ts);
    DecodeEncode(b.key, b.ts);
  }

  /** The order in which a partition iterates its versions. */
  predicate Before(a: Version, b: Version) {
    Less(Encode(a.key, a.ts), Encode(b.key, b.ts))
  }

  lemma BeforeIsOrder()
    ensures StrictOrder(Before)
  {
    forall a ensures !Before(a, a) { LessIrreflexive(Encode(a.key, a.ts)); }
    forall a, b ensures a == b || Before(a, b) || Before(b, a) {
      LessTotal(Encode(a.key, a.ts), Encode(b.key, b.ts));
      EncodeInjective(a, b);
    }
    forall a, b, c | Before(a, b) && Before(b, c) ensures Before(a, c) {
      LessTransitive(Encode(a.key, a.ts), Encode(b.key, b.ts), Encode(c.key, c.ts));
    }
  }

  /** Versions of one key are stored newest first. */
  lemma NewestFirst(key: Key, a: Ts, b: Ts)
    ensures Before(Version(key, a), Version(key, b)) <==> a > b
  {
    Pow256Values();
    LessAfterCommonFront(key, BigEndian(MAX_TS - a, 8), BigEndian(MAX_TS - b, 8));
    BigEndianOrder(MAX_TS - a, MAX_TS - b, 8);
  }

  const ONES: Bytes := [255, 255, 255, 255, 255, 255, 255, 255]

  lemma {:induction false} BigEndianExtremes(width: nat)
    ensures BigEndian(0, width) == seq(width, _ => 0)
    ensures BigEndian(Pow256(width) - 1, width) == seq(width, _ => 255)
  {
    if width > 0 {
      BigEndianExtremes(width - 1);
      assert (256 * Pow256(width - 1) - 1) / 256 == Pow256(width - 1) - 1;
    }
  }

  /** Only an extension of a string of 0xff bytes can follow it. */
  lemma {:induction false} AboveOnes(ones: Bytes, y: Bytes)
    requires forall i | 0 <= i < |ones| :: ones[i] == 255
    ensures Less(ones, y) ==> IsPrefix(ones, y)
  {
    if ones != [] && y != [] && y[0] == 255 {
      AboveOnes(ones[1..], y[1..]);
      if Less(ones, y) {
        assert ones == [ones[0]] + ones[1..] && y[..|ones|] == [y[0]] + y[1..][..|ones| - 1];
      }
    }
  }

  lemma {:induction false} BelowOnes(a: Bytes, y: Bytes, width: nat)
    requires |a| == width < |y| && forall i | 0 <= i < width :: y[i] == 255
    ensures Less(a, y)
  {
    if width > 0 && a[0] == 255 {
      BelowOnes(a[1..], y[1..], width - 1);
    }
  }

  lemma SameFront(a: Key, x: Bytes, s: Ts, t: Ts)
    ensures Less(Encode(a, s), Encode(a + x, t))
            <==> Less(BigEndian(MAX_TS - s, 8), x + BigEndian(MAX_TS - t, 8))
  {
    assert Encode(a + x, t) == a + (x + BigEndian(MAX_TS - t, 8));
    LessAfterCommonFront(a, BigEndian(MAX_TS - s, 8), x + BigEndian(MAX_TS - t, 8));
  }

  lemma GroupedBeforeOnes(a: Key, x: Bytes, s: Ts, t: Ts)
    requires IsPrefix(ONES, x)
    ensures Less(Encode(a, s), Encode(a + x, t))
  {
    SameFront(a, x, s, t);
    assert forall i | 0 <= i < 8 :: x[i] == x[..8][i];
    BelowOnes(BigEndian(MAX_TS - s, 8), x + BigEndian(MAX_TS - t, 8), 8);
  }

  /** Otherwise the oldest version of a key follows the newest of its extension. */
  lemma ExtensionInterleaves(a: Key, x: Bytes)
    requires x != [] && !IsPrefix(ONES, x)
    ensures !Less(Encode(a, 0), Encode(a + x, MAX_TS))
  {
    SameFront(a, x, 0, MAX_TS);
    Pow256Values();
    BigEndianExtremes(8);
    assert ONES == seq(8, _ => 255);
    var y := x + BigEndian(0, 8);
    if |x| < 8 {
      assert y[7] == BigEndian(0, 8)[7 - |x|] == 0;
      assert y[..8][7] != ONES[7];
    } else {
      assert y[..8] == x[..8];
    }
    AboveOnes(ONES, y);
  }

  lemma {:induction false} ZerosFirst(zeros: Bytes, y: Bytes)
    requires |zeros| < |y| && forall i | 0 <= i < |zeros| :: zeros[i] == 0
    ensures Less(zeros, y)
  {
    if zeros != [] && y[0] == 0 { ZerosFirst(zeros[1..], y[1..]); }
  }

  /** Then the newest version of the extension lies between the newest and the oldest of the key. */
  lemma ExtensionIntrudes(a: Key, x: Bytes)
    requires x != [] && !IsPrefix(ONES, x)
    ensures Less(Encode(a, MAX_TS), Encode(a + x, MAX_TS)) && Before(Version(a + x, MAX_TS), Version(a, 0))
  {
    hide Encode, BigEndian;
    BigEndianExtremes(8);
    ZerosFirst(BigEndian(0, 8), x + BigEndian(0, 8));
    SameFront(a, x, MAX_TS, MAX_TS);
    ExtensionInterleaves(a, x);
    LessTotal(Encode(a, 0), Encode(a + x, MAX_TS));
    EncodeInjective(Version(a, 0), Version(a + x, MAX_TS));
  }

  const TWO_56 := 0x100_0000_0000_0000

  lemma {:induction false} TopByte(n: nat, width: nat)
    requires width > 0 && 255 * Pow256(width - 1) <= n < Pow256(width)
    ensures BigEndian(n, width)[0] == 255
  {
    if width > 1 {
      assert Pow256(width - 1) == 256 * Pow256(width - 2);
      TopByte(n / 256, width - 1);
    }
  }

  /** Any version of a key extended by a zero byte lies between the first possible version of the key
      and all that it has below 2^56. */
  lemma ZeroExtensionIntrudes(a: Key, y: Bytes, t: Ts, ts: Ts)
    requires ts < TWO_56
    ensures Less(Encode(a, MAX_TS), Encode(a + ([0] + y), t)) && Before(Version(a + ([0] + y), t), Version(a, ts))
  {
    hide Encode, BigEndian;
    var x := [0] + y;
    var z, n := x + BigEndian(MAX_TS - t, 8), BigEndian(MAX_TS - ts, 8);
    Pow256Values();
    BigEndianExtremes(8);
    ZerosFirst(BigEndian(0, 8), z);
    SameFront(a, x, MAX_TS, t);
    TopByte(MAX_TS - ts, 8);
    assert z[0] == 0 && Less(z, n);
    ExtensionFirst(a, x, t, ts);
  }

  lemma ExtensionFirst(a: Key, x: Bytes, t: Ts, ts: Ts)
    requires Less(x + BigEndian(MAX_TS - t, 8), BigEndian(MAX_TS - ts, 8))
    ensures Less(Encode(a + x, t), Encode(a, ts))
  {
    assert Encode(a + x, t) == a + (x + BigEndian(MAX_TS - t, 8));
    LessAfterCommonFront(a, x + BigEndian(MAX_TS - t, 8), BigEndian(MAX_TS - ts, 8));
  }

  /** All versions of one key are stored before all versions of the other. */
  ghost predicate Precedes(a: Key, b: Key) {
    forall s, t :: Before(Version(a, s), Version(b, t))
  }

  /** The smaller key's versions come first exactly when it is no prefix of the larger one,
      or is followed there by eight bytes 0xff. */
  lemma PrecedesExactly(a: Key, b: Key)
    requires Less(a, b)
    ensures Precedes(a, b) <==> !IsPrefix(a, b) || IsPrefix(ONES, b[|a|..])
  {
    hide Encode;
    if IsPrefix(a, b) {
      var x := b[|a|..];
      assert b == a + x;
      if IsPrefix(ONES, x) {
        forall s, t ensures Before(Version(a, s), Version(b, t)) { GroupedBeforeOnes(a, x, s, t); }
      } else {
        assert x != [] by { LessIrreflexive(a); assert x == [] ==> a == b; }
        ExtensionInterleaves(a, x);
        assert !Before(Version(a, 0), Version(b, MAX_TS));
      }
    } else {
      NoPrefixPrecedes(a, b);
    }
  }

  lemma NoPrefixPrecedes(a: Key, b: Key)
    requires Less(a, b) && !IsPrefix(a, b)
    ensures Precedes(a, b)
  {
    forall s, t ensures Before(Version(a, s), Version(b, t)) {
      LessExtends(a, b, BigEndian(MAX_TS - s, 8), BigEndian(MAX_TS - t, 8));
    }
  }

  /** The key is no prefix of the other, or is followed there by eight bytes 0xff. */
  predicate EndsBefore(a: Key, b: Key) {
    !IsPrefix(a, b) || IsPrefix(ONES, b[|a|..])
  }

  /** The versions of two different keys do not interleave. */
  predicate Parted(a: Key, b: Key) {
    EndsBefore(a, b) && EndsBefore(b, a)
  }

  /** Versions of two parted keys are ordered by the keys alone. */
  lemma KeyOrderDecides(a: Version, b: Version)
    requires Parted(a.key, b.key) && a.key != b.key
    ensures Before(a, b) <==> Less(a.key, b.key)
  {
    hide Encode;
    LessTotal(a.key, b.key);
    if Less(a.key, b.key) {
      PrecedesExactly(a.key, b.key);
      assert Before(Version(a.key, a.ts), Version(b.key, b.ts));
    } else {
      PrecedesExactly(b.key, a.key);
      assert Before(Version(b.key, b.ts), Version(a.key, a.ts));
      LessAsymmetric(Encode(b.key, b.ts), Encode(a.key, a.ts));
      LessAsymmetric(b.key, a.key);
    }
  }

  ghost predicate Separate(keys: set<Key>) {
    forall a, b | a in keys && b in keys && a != b :: Parted(a, b)
  }

  ghost predicate PrefixFree(keys: set<Key>) {
    forall a, b | a in keys && b in keys && a != b :: !IsPrefix(a, b)
  }

  lemma PrefixFreeIsSeparate(keys: set<Key>)
    ensures PrefixFree(keys) ==> Separate(keys)
  {
  }
}

/** Operations, commit records and locks, with their byte forms (storage/mvcc/mod.rs, storage/lock.rs). */
module Records {
  import opened Bytes
  import opened Wrappers
  import opened KeyEncoder

  datatype OpType = Put | Delete | Rollback

  datatype WriteRecord = WriteRecord(start: Ts, op: OpType)

  datatype Lock = Lock(primary: Key, start: Ts, ttl: u64, op: OpType)

  function OpByte(op: OpType): byte {
    match op
    case Put => 0
    case Delete => 1
    case Rollback => 2
  }

  function OpFromByte(b: byte): Option<OpType> {
    if b == 0 then Some(Put) else if b == 1 then Some(Delete) else if b == 2 then Some(Rollback) else None
  }

  function U64(b: Bytes): u64
    requires |b| == 8
  {
    Pow256Values();
    FromBigEndian(b)
  }

  function RecordToBytes(r: WriteRecord): Bytes {
    [OpByte(r.op)] + BigEndian(r.start, 8)
  }

  function RecordFromBytes(b: Bytes): Option<WriteRecord> {
    if |b| < 9 then None
    else match OpFromByte(b[0])
      case None => None
      case Some(op) => Some(WriteRecord(U64(b[1..9]), op))
  }

  function LockToBytes(l: Lock): Bytes {
    [OpByte(l.op)] + BigEndian(l.start, 8) + BigEndian(l.ttl, 8) + BigEndian(|l.primary|, 4) + l.primary
  }

  /** A lock never stores a rollback, and its declared primary length must fit the payload. */
  function LockFromBytes(b: Bytes): Option<Lock> {
    if |b| < 21 || b[0] > 1 then None
    else
      var len := FromBigEndian(b[17..21]);
      if |b| < 21 + len then None
      else Some(Lock(b[21..21 + len], U64(b[1..9]), U64(b[9..17]), if b[0] == 0 then Put else Delete))
  }

  lemma RecordRoundTrip(r: WriteRecord)
    ensures RecordFromBytes(RecordToBytes(r)) == Some(r)
  {
    assert RecordToBytes(r)[1..9] == BigEndian(r.start, 8);
    Pow256Values();
    BigEndianRoundTrip(r.start, 8);
  }

  /** Bytes decode to a record exactly when they hold an operation, 0 for Put, 1 for Delete and 2 for
      Rollback, and eight bytes of timestamp; what follows is ignored. */
  lemma RecordDecodesExactly(b: Bytes)
    ensures RecordFromBytes(b).Some? <==> |b| >= 9 && b[0] <= 2
    ensures RecordFromBytes(b).Some? ==>
              var r := RecordFromBytes(b).value;
              && RecordToBytes(r) == b[..9]
              && (b[0] == 0 <==> r.op == Put) && (b[0] == 1 <==> r.op == Delete)
  {
    hide BigEndian, FromBigEndian, Pow256;
    if |b| >= 9 && b[0] <= 2 {
      FromBigEndianRoundTrip(b[1..9]);
      assert b[..9] == [b[0]] + b[1..9];
    }
  }

  /** Bytes decode to a lock exactly when they hold an operation other than a rollback, both numbers, and a
      length with as many bytes of primary key; what follows is ignored. */
  lemma LockDecodesExactly(b: Bytes)
    ensures LockFromBytes(b).Some? <==> |b| >= 21 && b[0] <= 1 && |b| >= 21 + FromBigEndian(b[17..21])
    ensures LockFromBytes(b).Some? ==>
              var l := LockFromBytes(b).value;
              LockToBytes(l) == b[..21 + |l.primary|] && (b[0] == 0 <==> l.op == Put)
  {
    hide BigEndian, FromBigEndian, Pow256;
    if LockFromBytes(b).Some? {
      var len := FromBigEndian(b[17..21]);
      FromBigEndianRoundTrip(b[1..9]);
      FromBigEndianRoundTrip(b[9..17]);
      FromBigEndianRoundTrip(b[17..21]);
      assert b[..21 + len] == [b[0]] + b[1..9] + b[9..17] + b[17..21] + b[21..21 + len];
    }
  }

  /** The length field is a u32: of a longer primary key only the front survives. */
  function Kept(primary: Key): Key {
    primary[..|primary| % TWO_32]
  }

  /** Every lock but a rollback reads back, with as much of its primary key as the length field tells. */
  lemma LockReadsBack(l: Lock)
    ensures LockFromBytes(LockToBytes(l)) == if l.op == Rollback then None else Some(l.(primary := Kept(l.primary)))
  {
    hide LockToBytes, BigEndian, FromBigEndian, Pow256;
    LockLayout(l);
    var b := LockToBytes(l);
    Pow256Values();
    BigEndianRoundTrip(l.start, 8);
    BigEndianRoundTrip(l.ttl, 8);
    BigEndianRoundTrip(|l.primary|, 4);
    var len := FromBigEndian(b[17..21]);
    assert len == |l.primary| % TWO_32 <= |l.primary|;
    assert b[21..21 + len] == Kept(l.primary);
  }

  lemma KeptShort(primary: Key)
    ensures |Kept(primary)| < TWO_32
    ensures Kept(primary) == primary <==> |primary| < TWO_32
  {
    if |primary| < TWO_32 { assert primary[..|primary|] == primary; }
  }

  /** So exactly the locks whose primary key is shorter than 2^32 bytes, and which are not rollbacks,
      read back as written. */
  lemma LockRoundTrip(l: Lock)
    ensures LockFromBytes(LockToBytes(l)) == Some(l) <==> l.op != Rollback && |l.primary| < TWO_32
  {
    hide LockToBytes, LockFromBytes, Kept;
    LockReadsBack(l);
    KeptShort(l.primary);
  }

  lemma DecodedLock(b: Bytes)
    requires LockFromBytes(b).Some?
    ensures LockFromBytes(b).value.op != Rollback && |LockFromBytes(b).value.primary| < TWO_32
  {
    hide BigEndian;
    Pow256Values();
  }

  lemma LockLayout(l: Lock)
    ensures var b := LockToBytes(l);
            && |b| == 21 + |l.primary| && b[0] == OpByte(l.op)
            && b[1..9] == BigEndian(l.start, 8) && b[9..17] == BigEndian(l.ttl, 8)
            && b[17..21] == BigEndian(|l.primary|, 4) && b[21..] == l.primary
  {
  }
}
