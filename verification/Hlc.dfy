/** The hybrid logical clock (txn-coordinator/hlc.rs). */
module Hlc {
  import opened Bytes

  const TWO_16 := 0x1_0000
  const TWO_48 := 0x1_0000_0000_0000

  datatype Timestamp = Timestamp(physical: u64, logical: u32)

  /** Shifting left by sixteen bits drops the high physical bits; the logical part is masked. */
  function Encode(t: Timestamp): u64 {
    t.physical * TWO_16 % TWO_64 + t.logical % TWO_16
  }

  function Decode(ts: u64): Timestamp {
    Timestamp(ts / TWO_16, ts % TWO_16)
  }

  /** Decoding gives back exactly the stamps that fit: 48 bits of time, 16 bits of counter. */
  lemma DecodeEncodeExactly(t: Timestamp)
    ensures Decode(Encode(t)) == t <==> t.physical < TWO_48 && t.logical < TWO_16
    ensures Encode(t) == t.physical % TWO_48 * TWO_16 + t.logical % TWO_16
  {
    var q, r := t.physical / TWO_48, t.physical % TWO_48;
    assert t.physical * TWO_16 == q * TWO_64 + r * TWO_16;
    assert t.physical * TWO_16 % TWO_64 == r * TWO_16;
  }

  lemma EncodeDecode(ts: u64)
    ensures Encode(Decode(ts)) == ts
  {
  }

  /** Physical time first, then the counter. */
  predicate Before(a: Timestamp, b: Timestamp) {
    a.physical < b.physical || (a.physical == b.physical && a.logical < b.logical)
  }

  predicate Fits(t: Timestamp) {
    t.physical < TWO_48 && t.logical < TWO_16
  }

  /** On stamps that fit, the integer order is the order of the pairs. */
  lemma EncodeOrder(a: Timestamp, b: Timestamp)
    requires Fits(a) && Fits(b)
    ensures Encode(a) < Encode(b) <==> Before(a, b)
  {
    DecodeEncodeExactly(a);
    DecodeEncodeExactly(b);
  }

  // ---------- The two operations, as functions of the clock and the wall time ----------

  /** The counter is an unsigned 32-bit integer. */
  function Succ(logical: u32): u32 {
    (logical + 1) % TWO_32
  }

  function Now(c: Timestamp, wall: u64): Timestamp {
    if wall > c.physical then Timestamp(wall, 0) else Timestamp(c.physical, Succ(c.logical))
  }

  function Max(a: int, b: int): int {
    if a >= b then a else b
  }

  function Update(c: Timestamp, remote: u64, wall: u64): Timestamp {
    var r := Decode(remote);
    var max: u64 := Max(Max(wall, c.physical), r.physical);
    var logical: u32 :=
      if max == c.physical && max == r.physical then Succ(Max(c.logical, r.logical))
      else if max == c.physical then Succ(c.logical)
      else if max == r.physical then Succ(r.logical)
      else 0;
    Timestamp(max, logical)
  }

  /** The least reading after the given ones whose physical part is not behind the wall clock. */
  ghost predicate LeastAfter(n: Timestamp, seen: set<Timestamp>, wall: u64) {
    && (forall t | t in seen :: Before(t, n)) && n.physical >= wall
    && forall m: Timestamp | (forall t | t in seen :: Before(t, m)) && m.physical >= wall :: m == n || Before(n, m)
  }

  /** A tick shows the least reading that is after the last one and not behind the wall clock, exactly
      unless the counter is full and the wall clock has not moved on. */
  lemma NowIsLeastExactly(c: Timestamp, wall: u64)
    ensures LeastAfter(Now(c, wall), {c}, wall) <==> c.physical < wall || c.logical < TWO_32 - 1
  {
    var n := Now(c, wall);
    if c.physical < wall || c.logical < TWO_32 - 1 {
      forall m: Timestamp | (forall t | t in {c} :: Before(t, m)) && m.physical >= wall ensures m == n || Before(n, m) {
        assert c in {c} && Before(c, m);
      }
    } else {
      assert c in {c} && !Before(c, n);
    }
  }

  /** A merge shows the least reading that is after the last one and the remote stamp and not behind the
      wall clock, exactly unless the counter is full and neither of the others has moved on. */
  lemma UpdateIsLeastExactly(c: Timestamp, remote: u64, wall: u64)
    ensures LeastAfter(Update(c, remote, wall), {c, Decode(remote)}, wall)
            <==> c.physical < wall || c.physical < Decode(remote).physical || c.logical < TWO_32 - 1
  {
    var n, r := Update(c, remote, wall), Decode(remote);
    assert c in {c, r} && r in {c, r};
    if c.physical < wall || c.physical < r.physical || c.logical < TWO_32 - 1 {
      forall m: Timestamp | (forall t | t in {c, r} :: Before(t, m)) && m.physical >= wall
        ensures m == n || Before(n, m)
      {
        assert Before(c, m) && Before(r, m);
      }
    } else {
      assert !Before(c, n);
    }
  }

  // ---------- The clock object ----------

  class HybridLogicalClock {
    var latestPhysical: u64
    var logical: u32

    function Reading(): Timestamp
      reads this
    {
      Timestamp(latestPhysical, logical)
    }

    constructor (wall: u64)
      ensures Reading() == Timestamp(wall, 0)
    {
      latestPhysical, logical := wall, 0;
    }

    method Tick(wall: u64) returns (ts: u64)
      modifies this
      ensures Reading() == Now(old(Reading()), wall) && ts == Encode(Reading())
    {
      if wall > latestPhysical {
        latestPhysical := wall;
        logical := 0;
      } else {
        logical := (logical + 1) % TWO_32;
      }
      ts := Encode(Timestamp(latestPhysical, logical));
    }

    method Receive(remoteTs: u64, wall: u64)
      modifies this
      ensures Reading() == Update(old(Reading()), remoteTs, wall)
    {
      var remote := Decode(remoteTs);
      var max: u64 := Max(Max(wall, latestPhysical), remote.physical);
      if max == latestPhysical && max == remote.physical {
        logical := (Max(logical, remote.logical) + 1) % TWO_32;
      } else if max == latestPhysical {
        logical := (logical + 1) % TWO_32;
      } else if max == remote.physical {
        logical := (remote.logical + 1) % TWO_32;
      } else {
        logical := 0;
      }
      latestPhysical := max;
    }
  }

  // ---------- Every run ----------

  datatype Event = Tick(wall: u64) | Receive(remote: u64, wall: u64)

  function Step(c: Timestamp, e: Event): Timestamp {
    match e
    case Tick(wall) => Now(c, wall)
    case Receive(remote, wall) => Update(c, remote, wall)
  }

  function Clock(c: Timestamp, es: seq<Event>): Timestamp
    decreases |es|
  {
    if es == [] then c else Clock(Step(c, es[0]), es[1..])
  }

  /** Every reading of the clock along the run fits its 64-bit stamp. */
  ghost predicate FitsThroughout(c: Timestamp, es: seq<Event>)
    decreases |es|
  {
    Fits(c) && (es != [] ==> FitsThroughout(Step(c, es[0]), es[1..]))
  }

  lemma StepAdvances(c: Timestamp, e: Event)
    requires c.logical < TWO_16
    ensures Before(c, Step(c, e))
    ensures e.Receive? ==> Before(Decode(e.remote), Step(c, e))
  {
  }

  lemma BeforeTransitive(a: Timestamp, b: Timestamp, c: Timestamp)
    requires Before(a, b) && Before(b, c)
    ensures Before(a, c)
  {
  }

  lemma {:induction false} ClockAdvances(c: Timestamp, es: seq<Event>)
    requires FitsThroughout(c, es) && es != []
    ensures Before(c, Clock(c, es)) && Fits(Clock(c, es))
    decreases |es|
  {
    StepAdvances(c, es[0]);
    if |es| > 1 {
      ClockAdvances(Step(c, es[0]), es[1..]);
      BeforeTransitive(c, Step(c, es[0]), Clock(c, es));
    } else {
      assert es[1..] == [];
    }
  }

  lemma {:induction false} FitsAt(c: Timestamp, es: seq<Event>, k: nat)
    requires FitsThroughout(c, es) && k <= |es|
    ensures FitsThroughout(Clock(c, es[..k]), es[k..])
    ensures Clock(c, es) == Clock(Clock(c, es[..k]), es[k..])
    decreases k
  {
    if k == 0 {
      assert es[..0] == [] && es[0..] == es;
    } else {
      FitsAt(Step(c, es[0]), es[1..], k - 1);
      assert es[..k][1..] == es[1..][..k - 1] && es[..k][0] == es[0];
      assert es[1..][k - 1..] == es[k..];
    }
  }

  /** The stamp the clock would show after the first k events. */
  function StampAfter(c: Timestamp, es: seq<Event>, k: nat): u64
    requires k <= |es|
  {
    Encode(Clock(c, es[..k]))
  }

  /** Stamps strictly increase along every run, whatever the wall clock does, and everything after
      the receipt of a remote stamp exceeds it. */
  lemma Causality(c: Timestamp, es: seq<Event>, i: nat, j: nat)
    requires FitsThroughout(c, es) && i < j <= |es|
    ensures StampAfter(c, es, i) < StampAfter(c, es, j)
    ensures es[i].Receive? ==> es[i].remote < StampAfter(c, es, j)
  {
    hide FitsThroughout, Clock, Step;
    var a, b := Clock(c, es[..i]), Clock(c, es[..j]);
    Suffix(c, es, i, j);
    ClockAdvances(a, es[i..j]);
    FitsNow(a, es[i..j]);
    EncodeOrder(a, b);
    if es[i].Receive? {
      ReceivedIsBefore(a, es[i..j]);
      EncodeDecode(es[i].remote);
      RemoteFits(es[i].remote);
      EncodeOrder(Decode(es[i].remote), b);
    }
  }

  lemma RemoteFits(ts: u64)
    ensures Fits(Decode(ts))
  {
  }

  lemma FitsNow(c: Timestamp, es: seq<Event>)
    requires FitsThroughout(c, es)
    ensures Fits(c)
  {
  }

  lemma Suffix(c: Timestamp, es: seq<Event>, i: nat, j: nat)
    requires FitsThroughout(c, es) && i <= j <= |es|
    ensures FitsThroughout(Clock(c, es[..i]), es[i..j])
    ensures Clock(c, es[..j]) == Clock(Clock(c, es[..i]), es[i..j])
  {
    FitsPrefix(c, es, j);
    FitsAt(c, es[..j], i);
    assert es[..j][..i] == es[..i] && es[..j][i..] == es[i..j];
  }

  lemma {:induction false} FitsPrefix(c: Timestamp, es: seq<Event>, j: nat)
    requires FitsThroughout(c, es) && j <= |es|
    ensures FitsThroughout(c, es[..j])
    decreases j
  {
    if j > 0 {
      FitsPrefix(Step(c, es[0]), es[1..], j - 1);
      assert es[..j][1..] == es[1..][..j - 1] && es[..j][0] == es[0];
    }
  }

  lemma ReceivedIsBefore(c: Timestamp, es: seq<Event>)
    requires FitsThroughout(c, es) && es != [] && es[0].Receive?
    ensures Before(Decode(es[0].remote), Clock(c, es))
  {
    StepAdvances(c, es[0]);
    if |es| > 1 {
      ClockAdvances(Step(c, es[0]), es[1..]);
      BeforeTransitive(Decode(es[0].remote), Step(c, es[0]), Clock(c, es));
    } else {
      assert es[1..] == [];
    }
  }

  lemma PairOrder(a: nat, x: nat, b: nat, y: nat)
    requires x < TWO_16 && y < TWO_16
    ensures a * TWO_16 + x < b * TWO_16 + y <==> a < b || (a == b && x < y)
  {
  }

  lemma NextLow(logical: u32)
    ensures logical % TWO_16 < Succ(logical) % TWO_16 <==> logical % TWO_16 != TWO_16 - 1
  {
    var q, r := logical / TWO_16, logical % TWO_16;
    if logical + 1 < TWO_32 {
      assert logical + 1 == q * TWO_16 + (r + 1);
    }
  }

  /** Without the bounds: a tick raises the stamp exactly when the counter does not wrap its sixteen
      bits, or the new wall time does not wrap its forty-eight. */
  lemma TickRaisesStampExactly(c: Timestamp, wall: u64)
    ensures Encode(c) < Encode(Now(c, wall)) <==>
            if wall > c.physical then c.physical % TWO_48 < wall % TWO_48
            else c.logical % TWO_16 != TWO_16 - 1
  {
    hide Encode, Succ;
    var n := Now(c, wall);
    DecodeEncodeExactly(c);
    DecodeEncodeExactly(n);
    PairOrder(c.physical % TWO_48, c.logical % TWO_16, n.physical % TWO_48, n.logical % TWO_16);
    NextLow(c.logical);
  }
}
