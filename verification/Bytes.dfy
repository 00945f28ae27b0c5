/**
 Byte strings in the order in which Fjall partitions iterate them, and the
 big-endian integers the store embeds in its keys and values.
 */
module Bytes {
  import opened Ordered

  const TWO_32 := 0x1_0000_0000
  const TWO_64 := 0x1_0000_0000_0000_0000

  type byte = b: int | 0 <= b < 256
  type u32 = n: int | 0 <= n < TWO_32
  type u64 = n: int | 0 <= n < TWO_64
  type Bytes = seq<byte>

  // ---------- Lexicographic order ----------

  predicate Less(a: Bytes, b: Bytes) {
    |b| > 0 && (|a| == 0 || a[0] < b[0] || (a[0] == b[0] && Less(a[1..], b[1..])))
  }

  predicate Leq(a: Bytes, b: Bytes) {
    a == b || Less(a, b)
  }

  lemma LessIrreflexive(a: Bytes)
    ensures !Less(a, a)
  {
  }

  lemma {:induction false} LessTransitive(a: Bytes, b: Bytes, c: Bytes)
    requires Less(a, b) && Less(b, c)
    ensures Less(a, c)
  {
    if |a| > 0 && a[0] == b[0] && b[0] == c[0] {
      LessTransitive(a[1..], b[1..], c[1..]);
    }
  }

  lemma {:induction false} LessTotal(a: Bytes, b: Bytes)
    ensures a == b || Less(a, b) || Less(b, a)
  {
    if |a| > 0 && |b| > 0 && a[0] == b[0] {
      LessTotal(a[1..], b[1..]);
      assert a == [a[0]] + a[1..] && b == [b[0]] + b[1..];
    }
  }

  lemma LessAsymmetric(a: Bytes, b: Bytes)
    requires Less(a, b)
    ensures !Less(b, a) && a != b
  {
    LessIrreflexive(a);
    if Less(b, a) {
      LessTransitive(a, b, a);
    }
  }

  /** Byte order is a strict total order. */
  lemma LessIsOrder()
    ensures StrictOrder(Less)
  {
    forall a ensures !Less(a, a) { LessIrreflexive(a); }
    forall a, b ensures a == b || Less(a, b) || Less(b, a) { LessTotal(a, b); }
    forall a, b, c | Less(a, b) && Less(b, c) ensures Less(a, c) { LessTransitive(a, b, c); }
  }

  /** A common front does not change the order. */
  lemma {:induction false} LessAfterCommonFront(p: Bytes, a: Bytes, b: Bytes)
    ensures Less(p + a, p + b) <==> Less(a, b)
  {
    if p == [] {
      assert p + a == a && p + b == b;
    } else {
      assert (p + a)[1..] == p[1..] + a && (p + b)[1..] == p[1..] + b;
      LessAfterCommonFront(p[1..], a, b);
    }
  }

  predicate IsPrefix(a: Bytes, b: Bytes) {
    |a| <= |b| && b[..|a|] == a
  }

  /** Strings that part before either one ends keep their order under any extension. */
  lemma {:induction false} LessExtends(a: Bytes, b: Bytes, x: Bytes, y: Bytes)
    requires Less(a, b) && !IsPrefix(a, b)
    ensures Less(a + x, b + y)
  {
    if a[0] == b[0] {
      assert !IsPrefix(a[1..], b[1..]);
      LessExtends(a[1..], b[1..], x, y);
      assert (a + x)[1..] == a[1..] + x && (b + y)[1..] == b[1..] + y;
    }
  }

  lemma {:induction false} LessLastByte(a: Bytes, b: Bytes, x: byte, y: byte)
    requires |a| == |b|
    ensures Less(a + [x], b + [y]) <==> Less(a, b) || (a == b && x < y)
  {
    if a != [] {
      assert (a + [x])[1..] == a[1..] + [x] && (b + [y])[1..] == b[1..] + [y];
      assert a == [a[0]] + a[1..] && b == [b[0]] + b[1..];
      LessLastByte(a[1..], b[1..], x, y);
    } else {
      assert a + [x] == [x] && b + [y] == [y];
    }
  }

  // ---------- Big-endian integers ----------

  function Pow256(width: nat): (p: nat)
    ensures p > 0
  {
    if width == 0 then 1 else 256 * Pow256(width - 1)
  }

  lemma Pow256Values()
    ensures Pow256(4) == TWO_32 && Pow256(8) == TWO_64
  {
    assert Pow256(4) == 256 * (256 * (256 * (256 * Pow256(0))));
    assert Pow256(8) == 256 * (256 * (256 * (256 * Pow256(4))));
  }

  /** The `width` low bytes of n, most significant first. */
  function BigEndian(n: nat, width: nat): (b: Bytes)
    ensures |b| == width
  {
    if width == 0 then [] else BigEndian(n / 256, width - 1) + [n % 256]
  }

  function FromBigEndian(b: Bytes): (n: nat)
    ensures n < Pow256(|b|)
  {
    if |b| == 0 then 0 else FromBigEndian(b[..|b| - 1]) * 256 + b[|b| - 1]
  }

  /** Only the low bytes survive: a narrowing cast followed by to_be_bytes. */
  lemma {:induction false} BigEndianRoundTrip(n: nat, width: nat)
    ensures FromBigEndian(BigEndian(n, width)) == n % Pow256(width)
  {
    if width > 0 {
      BigEndianRoundTrip(n / 256, width - 1);
      var b := BigEndian(n, width);
      assert b[..width - 1] == BigEndian(n / 256, width - 1);
      var p := Pow256(width - 1);
      ModSplit(n, p);
    }
  }

  lemma ModSplit(n: nat, p: nat)
    requires p > 0
    ensures n / 256 % p * 256 + n % 256 == n % (256 * p)
  {
    var q, r := n / 256, n % 256;
    var a, c := q / p, q % p;
    assert n == 256 * (a * p + c) + r;
    assert n == a * (256 * p) + (256 * c + r) by {
      assert 256 * (a * p) == a * (256 * p);
    }
    assert 0 <= 256 * c + r < 256 * p;
    ModUnique(n, 256 * p, a, 256 * c + r);
  }

  lemma ModUnique(n: int, m: int, a: int, r: int)
    requires m > 0 && 0 <= r < m && n == a * m + r
    ensures n % m == r
  {
    var q := n / m;
    assert n == q * m + n % m;
    assert (a - q) * m == a * m - q * m;
    SmallMultiple(a - q, m);
  }

  lemma SmallMultiple(x: int, m: int)
    requires -m < x * m < m
    ensures x == 0
  {
  }

  lemma {:induction false} FromBigEndianRoundTrip(b: Bytes)
    ensures BigEndian(FromBigEndian(b), |b|) == b
  {
    if |b| > 0 {
      FromBigEndianRoundTrip(b[..|b| - 1]);
      assert b == b[..|b| - 1] + [b[|b| - 1]];
    }
  }

  /** On equal widths byte order is numeric order. */
  lemma {:induction false} BigEndianOrder(m: nat, n: nat, width: nat)
    requires m < Pow256(width) && n < Pow256(width)
    ensures Less(BigEndian(m, width), BigEndian(n, width)) <==> m < n
    decreases width
  {
    if width > 0 {
      var m', n' := m / 256, n / 256;
      BigEndianOrder(m', n', width - 1);
      BigEndianOrder(n', m', width - 1);
      var a, b := BigEndian(m', width - 1), BigEndian(n', width - 1);
      LessIrreflexive(a);
      LessTotal(a, b);
      LessLastByte(a, b, m % 256, n % 256);
    }
  }
}

/** Ordered iteration of a finite set. */
module Ordered {

  ghost predicate StrictOrder<T(!new)>(less: (T, T) -> bool) {
    && (forall a :: !less(a, a))
    && (forall a, b :: a == b || less(a, b) || less(b, a))
    && (forall a, b, c :: less(a, b) && less(b, c) ==> less(a, c))
  }

  ghost predicate Ascending<T>(s: seq<T>, less: (T, T) -> bool) {
    forall i, j | 0 <= i < j < |s| :: less(s[i], s[j])
  }

  predicate IsLeast<T(==)>(m: T, s: set<T>, less: (T, T) -> bool) {
    m in s && forall e | e in s :: e == m || less(m, e)
  }

  lemma {:induction false} LeastExists<T(!new)>(s: set<T>, less: (T, T) -> bool) returns (m: T)
    requires s != {} && StrictOrder(less)
    ensures IsLeast(m, s, less)
    decreases |s|
  {
    var x :| x in s;
    m := x;
    if s != {x} {
      m := LeastExists(s - {x}, less);
      if less(x, m) {
        m := x;
      }
      assert forall e | e in s :: e == x || e in s - {x};
    }
  }

  function Least<T(==, !new)>(s: set<T>, less: (T, T) -> bool): (m: T)
    requires s != {} && StrictOrder(less)
    ensures IsLeast(m, s, less)
  {
    assert exists m :: IsLeast(m, s, less) by { var l := LeastExists(s, less); }
    var m :| m in s && IsLeast(m, s, less);
    m
  }

  /** The elements of s in ascending order. */
  function Sorted<T(==, !new)>(s: set<T>, less: (T, T) -> bool): (r: seq<T>)
    requires StrictOrder(less)
    ensures |r| == |s| && Ascending(r, less)
    ensures forall e :: e in r <==> e in s
  {
    if s == {} then [] else
      var m := Least(s, less);
      var r := Sorted(s - {m}, less);
      assert forall i | 0 <= i < |r| :: r[i] in r;
      [m] + r
  }

  /** Ascending sequences with the same elements are the same sequence. */
  lemma {:induction false} AscendingUnique<T(!new)>(a: seq<T>, b: seq<T>, less: (T, T) -> bool)
    requires StrictOrder(less) && Ascending(a, less) && Ascending(b, less)
    requires forall e :: e in a <==> e in b
    ensures a == b
  {
    assert b != [] ==> b[0] in b;
    if a != [] {
      assert a[0] in b && b[0] in a;
      var i :| 0 <= i < |b| && b[i] == a[0];
      var j :| 0 <= j < |a| && a[j] == b[0];
      assert a[0] == b[0];
      assert forall k | 0 < k < |a| :: a[k] in b && a[k] != b[0];
      assert forall k | 0 < k < |b| :: b[k] in a && b[k] != a[0];
      TailElements(a, b);
      TailElements(b, a);
      AscendingUnique(a[1..], b[1..], less);
      assert a == [a[0]] + a[1..] && b == [b[0]] + b[1..];
    }
  }

  lemma TailElements<T>(a: seq<T>, b: seq<T>)
    requires a != [] && b != []
    requires forall k | 0 < k < |a| :: a[k] in b && a[k] != b[0]
    ensures forall e | e in a[1..] :: e in b[1..]
  {
    forall e | e in a[1..] ensures e in b[1..] {
      var k :| 0 <= k < |a| - 1 && a[1..][k] == e;
      assert a[k + 1] == e;
      var i :| 0 <= i < |b| && b[i] == e;
      assert b[1..][i - 1] == e;
    }
  }
}
