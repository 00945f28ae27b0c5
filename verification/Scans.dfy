/** A range scan is a run of gets: which keys it asks for, what it makes of their answers, and when it stops. */
module Scans {
  import opened Bytes
  import opened Ordered
  import opened Wrappers
  import opened KeyEncoder
  import opened Records
  import opened Store
  import opened Txn
  import opened Protocol
  import opened Calls
  import opened RangeScan

  ghost predicate OnlyGets(cs: seq<Call>, readTs: Ts, clock: Clock) {
    forall i | 0 <= i < |cs| :: cs[i].GetCall? && cs[i].readTs == readTs && cs[i].now == clock(cs[i].key)
  }

  /** What gets made one after the other answer: the first error, or the keys that have a value, with it. */
  function PageOf(s: Store, cs: seq<Call>): Page
    requires forall i | 0 <= i < |cs| :: cs[i].GetCall?
    decreases |cs|
  {
    if cs == [] then Ok([])
    else
      match Get(s, cs[0].key, cs[0].readTs, cs[0].now).result
      case Err(e) => Err(e)
      case Ok(value) =>
        match PageOf(Run(s, Get(s, cs[0].key, cs[0].readTs, cs[0].now).edits), cs[1..])
        case Err(e) => Err(e)
        case Ok(rest) => Ok((if value.Some? then [(cs[0].key, value.value)] else []) + rest)
  }

  /** A page of n pairs is not full. */
  predicate Room(limit: u32, n: nat) {
    limit == 0 || n < limit
  }

  /** The gets of the walk, given how many pairs it has found. */
  function GetsOf(s: Store, vs: seq<Version>, start: Key, end: Key, limit: u32, readTs: Ts, clock: Clock,
                  last: Option<Key>, n: nat): seq<Call>
    decreases |vs|
  {
    if vs == [] then []
    else
      var key := vs[0].key;
      if start != [] && Less(key, start) then GetsOf(s, vs[1..], start, end, limit, readTs, clock, last, n)
      else if end != [] && !Less(key, end) then []
      else if last == Some(key) then GetsOf(s, vs[1..], start, end, limit, readTs, clock, last, n)
      else
        var o := Get(s, key, readTs, clock(key));
        [GetCall(key, readTs, clock(key))]
        + if o.result.Err? then []
          else
            var n' := if o.result.value.Some? then n + 1 else n;
            if o.result.value.Some? && !Room(limit, n') then []
            else GetsOf(Run(s, o.edits), vs[1..], start, end, limit, readTs, clock, Some(key), n')
  }

  lemma {:induction false} GetsOnly(s: Store, vs: seq<Version>, start: Key, end: Key, limit: u32, readTs: Ts,
                                    clock: Clock, last: Option<Key>, n: nat)
    ensures OnlyGets(GetsOf(s, vs, start, end, limit, readTs, clock, last, n), readTs, clock)
    decreases |vs|
  {
    hide Get, Less, Run;
    if vs != [] {
      var key := vs[0].key;
      var o := Get(s, key, readTs, clock(key));
      GetsOnly(s, vs[1..], start, end, limit, readTs, clock, last, n);
      if o.result.Ok? {
        GetsOnly(Run(s, o.edits), vs[1..], start, end, limit, readTs, clock, Some(key),
                 if o.result.value.Some? then n + 1 else n);
      }
    }
  }

  /** The pairs found so far, followed by the page of the rest. */
  function Onto(acc: seq<Pair>, r: Page): Page {
    match r
    case Ok(rest) => Ok(acc + rest)
    case Err(e) => Err(e)
  }

  lemma OntoTwice(acc: seq<Pair>, more: seq<Pair>, r: Page)
    ensures Onto(acc + more, r) == Onto(acc, Onto(more, r))
  {
    if r.Ok? { assert acc + more + r.value == acc + (more + r.value); }
  }

  lemma NoGets(s: Store)
    ensures PageOf(s, []) == Ok([]) && After(s, []) == s
  {
  }

  /** The pair a get adds to a page, if it finds a value. */
  function Found(c: Call, value: Option<Value>): seq<Pair>
    requires c.GetCall?
  {
    if value.Some? then [(c.key, value.value)] else []
  }

  lemma OneMoreGet(s: Store, c: Call, rest: seq<Call>)
    requires c.GetCall? && forall i | 0 <= i < |rest| :: rest[i].GetCall?
    ensures var o := Get(s, c.key, c.readTs, c.now);
            && After(s, [c] + rest) == After(Run(s, o.edits), rest)
            && PageOf(s, [c] + rest) == match o.result
                                        case Err(e) => Err(e)
                                        case Ok(v) => Onto(Found(c, v), PageOf(Run(s, o.edits), rest))
  {
    hide Get, Run;
    assert ([c] + rest)[1..] == rest;
  }

  lemma OneGet(s: Store, c: Call)
    requires c.GetCall?
    ensures var o := Get(s, c.key, c.readTs, c.now);
            && After(s, [c]) == Run(s, o.edits)
            && PageOf(s, [c]) == match o.result
                                 case Err(e) => Err(e)
                                 case Ok(v) => Ok(Found(c, v))
  {
    hide Get, Run;
    var o := Get(s, c.key, c.readTs, c.now);
    OneMoreGet(s, c, []);
    assert [c] + [] == [c];
    if o.result.Ok? { assert Found(c, o.result.value) + [] == Found(c, o.result.value); }
  }

  /** The walk answers the page of its gets, and leaves the store they leave. */
  lemma {:induction false} WalkIsGets(s: Store, vs: seq<Version>, start: Key, end: Key, limit: u32, readTs: Ts,
                                      clock: Clock, last: Option<Key>, acc: seq<Pair>)
    requires Room(limit, |acc|)
    ensures var cs := GetsOf(s, vs, start, end, limit, readTs, clock, last, |acc|);
            var o := Walk(s, vs, start, end, limit, readTs, clock, last, acc);
            && OnlyGets(cs, readTs, clock) && After(s, cs) == Run(s, o.edits) && o.result == Onto(acc, PageOf(s, cs))
    decreases |vs|
  {
    hide Get, Less, Run, PageOf, After;
    var cs := GetsOf(s, vs, start, end, limit, readTs, clock, last, |acc|);
    NoGets(s);
    GetsOnly(s, vs, start, end, limit, readTs, clock, last, |acc|);
    RunNothing(s);
    assert acc + [] == acc;
    if vs != [] {
      var key := vs[0].key;
      if start != [] && Less(key, start) {
        WalkIsGets(s, vs[1..], start, end, limit, readTs, clock, last, acc);
      } else if end != [] && !Less(key, end) {
      } else if last == Some(key) {
        WalkIsGets(s, vs[1..], start, end, limit, readTs, clock, last, acc);
      } else {
        var o := Get(s, key, readTs, clock(key));
        var c, s' := GetCall(key, readTs, clock(key)), Run(s, o.edits);
        OneGet(s, c);
        assert [c] + [] == [c];
        if o.result.Ok? {
          var value := o.result.value;
          var found := Found(c, value);
          if !(value.Some? && !Room(limit, |acc| + 1)) {
            assert acc + found == if value.Some? then acc + [(key, value.value)] else acc;
            WalkIsGets(s', vs[1..], start, end, limit, readTs, clock, Some(key), acc + found);
            var rest := GetsOf(s', vs[1..], start, end, limit, readTs, clock, Some(key), |acc + found|);
            RunConcat(s, o.edits, Walk(s', vs[1..], start, end, limit, readTs, clock, Some(key), acc + found).edits);
            assert cs == [c] + rest;
            GetsOnly(s', vs[1..], start, end, limit, readTs, clock, Some(key), |acc + found|);
            OneMoreGet(s, c, rest);
            OntoTwice(acc, found, PageOf(s', rest));
          }
        }
      }
    }
  }

  // ---------- Which keys ----------

  ghost predicate Ahead(vs: seq<Version>, last: Option<Key>) {
    KeyOrdered(vs) && (last.Some? ==> forall i | 0 <= i < |vs| :: Leq(last.value, vs[i].key))
  }

  ghost predicate OnWalk(vs: seq<Version>, key: Key) {
    exists v :: v in vs && v.key == key
  }

  /** The gets go to keys of the walk, in range, in key order, and past the last one. */
  ghost predicate Ascends(cs: seq<Call>, vs: seq<Version>, start: Key, end: Key, last: Option<Key>)
    requires forall i | 0 <= i < |cs| :: cs[i].GetCall?
  {
    && (forall i, j | 0 <= i < j < |cs| :: Less(cs[i].key, cs[j].key))
    && (forall i | 0 <= i < |cs| :: InRange(cs[i].key, start, end) && OnWalk(vs, cs[i].key))
    && (last.Some? ==> forall i | 0 <= i < |cs| :: Less(last.value, cs[i].key))
  }

  lemma AscendsLater(cs: seq<Call>, vs: seq<Version>, start: Key, end: Key, last: Option<Key>)
    requires vs != [] && (forall i | 0 <= i < |cs| :: cs[i].GetCall?) && Ascends(cs, vs[1..], start, end, last)
    ensures Ascends(cs, vs, start, end, last)
  {
    hide Less, InRange;
    forall i | 0 <= i < |cs| ensures OnWalk(vs, cs[i].key) {
      assert OnWalk(vs[1..], cs[i].key);
      var v :| v in vs[1..] && v.key == cs[i].key;
      assert v in vs;
    }
  }

  lemma AscendsCons(c: Call, rest: seq<Call>, vs: seq<Version>, start: Key, end: Key, last: Option<Key>)
    requires vs != [] && Ahead(vs, last) && c.GetCall? && c.key == vs[0].key
    requires InRange(c.key, start, end) && last != Some(c.key)
    requires (forall i | 0 <= i < |rest| :: rest[i].GetCall?) && Ascends(rest, vs[1..], start, end, Some(c.key))
    ensures Ascends([c] + rest, vs, start, end, last)
  {
    hide Less, InRange;
    AscendsLater(rest, vs, start, end, Some(c.key));
    assert vs[0] in vs;
    if last.Some? {
      forall i | 0 <= i < |rest| ensures Less(last.value, rest[i].key) {
        LessTransitive(last.value, c.key, rest[i].key);
      }
    }
  }

  lemma {:induction false} GetsAscend(s: Store, vs: seq<Version>, start: Key, end: Key, limit: u32, readTs: Ts,
                                      clock: Clock, last: Option<Key>, n: nat)
    requires Ahead(vs, last)
    ensures var cs := GetsOf(s, vs, start, end, limit, readTs, clock, last, n);
            OnlyGets(cs, readTs, clock) && Ascends(cs, vs, start, end, last)
    decreases |vs|
  {
    hide Get, Less, Run, Room, Ascends;
    GetsOnly(s, vs, start, end, limit, readTs, clock, last, n);
    AscendsNone(vs, start, end, last);
    if vs != [] {
      var key := vs[0].key;
      if (start != [] && Less(key, start)) || last == Some(key) {
        GetsAscend(s, vs[1..], start, end, limit, readTs, clock, last, n);
        AscendsLater(GetsOf(s, vs[1..], start, end, limit, readTs, clock, last, n), vs, start, end, last);
      } else if end == [] || Less(key, end) {
        var o := Get(s, key, readTs, clock(key));
        var c := GetCall(key, readTs, clock(key));
        AscendsNone(vs[1..], start, end, Some(key));
        AscendsCons(c, [], vs, start, end, last);
        assert [c] + [] == [c];
        if o.result.Ok? {
          var n' := if o.result.value.Some? then n + 1 else n;
          GetsAscend(Run(s, o.edits), vs[1..], start, end, limit, readTs, clock, Some(key), n');
          var rest := GetsOf(Run(s, o.edits), vs[1..], start, end, limit, readTs, clock, Some(key), n');
          AscendsCons(c, rest, vs, start, end, last);
        }
      }
    }
  }

  lemma AscendsNone(vs: seq<Version>, start: Key, end: Key, last: Option<Key>)
    ensures Ascends([], vs, start, end, last)
  {
  }

  ghost predicate Asks(cs: seq<Call>, key: Key) {
    exists i :: 0 <= i < |cs| && cs[i].GetCall? && cs[i].key == key
  }

  /** The walk ends early only at an error or with a full page: otherwise it asks for every key in range. */
  lemma {:induction false} GetsComplete(s: Store, vs: seq<Version>, start: Key, end: Key, limit: u32, readTs: Ts,
                                        clock: Clock, last: Option<Key>, n: nat, v: Version)
    requires Ahead(vs, last) && v in vs && InRange(v.key, start, end) && last != Some(v.key) && Room(limit, n)
    ensures var cs := GetsOf(s, vs, start, end, limit, readTs, clock, last, n);
            OnlyGets(cs, readTs, clock)
            && (PageOf(s, cs).Ok? && Room(limit, n + |PageOf(s, cs).value|) ==> Asks(cs, v.key))
    decreases |vs|
  {
    hide Get, Less, Run, PageOf;
    var cs := GetsOf(s, vs, start, end, limit, readTs, clock, last, n);
    GetsOnly(s, vs, start, end, limit, readTs, clock, last, n);
    var key := vs[0].key;
    if start != [] && Less(key, start) {
      GetsComplete(s, vs[1..], start, end, limit, readTs, clock, last, n, v);
    } else if end != [] && !Less(key, end) {
      BeyondEnd(vs, end);
    } else if last == Some(key) {
      GetsComplete(s, vs[1..], start, end, limit, readTs, clock, last, n, v);
    } else {
      var o := Get(s, key, readTs, clock(key));
      var c, s' := GetCall(key, readTs, clock(key)), Run(s, o.edits);
      OneGet(s, c);
      assert [c] + [] == [c];
      if key == v.key {
        assert cs[0].key == key;
      } else if o.result.Ok? && !(o.result.value.Some? && !Room(limit, n + 1)) {
        var n' := if o.result.value.Some? then n + 1 else n;
        GetsComplete(s', vs[1..], start, end, limit, readTs, clock, Some(key), n', v);
        var rest := GetsOf(s', vs[1..], start, end, limit, readTs, clock, Some(key), n');
        assert cs == [c] + rest;
        OneMoreGet(s, c, rest);
        if Asks(rest, v.key) {
          var i :| 0 <= i < |rest| && rest[i].GetCall? && rest[i].key == v.key;
          assert cs[i + 1] == rest[i];
        }
      }
    }
  }

  /** Before its last get, the walk has met no error and its page has room. */
  lemma {:induction false} GetsStop(s: Store, vs: seq<Version>, start: Key, end: Key, limit: u32, readTs: Ts,
                                    clock: Clock, last: Option<Key>, n: nat)
    requires Room(limit, n) && GetsOf(s, vs, start, end, limit, readTs, clock, last, n) != []
    ensures var cs := GetsOf(s, vs, start, end, limit, readTs, clock, last, n);
            && OnlyGets(cs, readTs, clock)
            && var before := PageOf(s, cs[..|cs| - 1]);
               before.Ok? && Room(limit, n + |before.value|)
    decreases |vs|
  {
    hide Get, Less, Run, PageOf;
    var cs := GetsOf(s, vs, start, end, limit, readTs, clock, last, n);
    GetsOnly(s, vs, start, end, limit, readTs, clock, last, n);
    NoGets(s);
    var key := vs[0].key;
    if (start != [] && Less(key, start)) || last == Some(key) {
      GetsStop(s, vs[1..], start, end, limit, readTs, clock, last, n);
    } else if |cs| == 1 {
      assert cs[..0] == [];
    } else {
      var o := Get(s, key, readTs, clock(key));
      var n' := if o.result.value.Some? then n + 1 else n;
      var rest := GetsOf(Run(s, o.edits), vs[1..], start, end, limit, readTs, clock, Some(key), n');
      var c := GetCall(key, readTs, clock(key));
      assert cs == [c] + rest;
      GetsStop(Run(s, o.edits), vs[1..], start, end, limit, readTs, clock, Some(key), n');
      assert cs[..|cs| - 1] == [c] + rest[..|rest| - 1];
      OneMoreGet(s, c, rest[..|rest| - 1]);
    }
  }

  // ---------- The scan ----------

  /** A scan reaches a key through any of its records, but the start key only through those at or below the
      snapshot.  A lock does not lead to a key. */
  ghost predicate Reached(s: Store, start: Key, readTs: Ts, key: Key) {
    exists ts: Ts :: Version(key, ts) in s.writes && (key == start && start != [] ==> ts <= readTs)
  }

  lemma ScanReachesExactly(s: Store, keys: set<Key>, start: Key, end: Key, readTs: Ts, key: Key)
    requires Separate(keys) && KeysWithin(s.writes, keys) && (start == [] || start in keys) && InRange(key, start, end)
    ensures Reached(s, start, readTs, key) <==> OnWalk(Scan(s.writes, Seek(start, readTs)), key)
  {
    hide Scan, Encode;
    var seek := Seek(start, readTs);
    ScanFacts(s.writes, seek);
    forall ts: Ts | Version(key, ts) in s.writes
      ensures Leq(seek, Encode(key, ts)) <==> (key == start && start != [] ==> ts <= readTs)
    {
      SeekExactly(keys, start, readTs, Version(key, ts));
    }
    if Reached(s, start, readTs, key) {
      var ts: Ts :| Version(key, ts) in s.writes && (key == start && start != [] ==> ts <= readTs);
      assert Version(key, ts) in Scan(s.writes, seek);
    }
    if v :| v in Scan(s.writes, seek) && v.key == key { assert v == Version(key, v.ts); }
  }

  /** A scan is a run of gets at its snapshot: they go, in key order, to keys in range that a record leads
      to, and the scan answers their first error or the pairs they find.  It stops with the first error or a
      full page, and otherwise has asked for every such key. */
  lemma ScanExactly(s: Store, keys: set<Key>, start: Key, end: Key, limit: u32, readTs: Ts, clock: Clock)
    returns (cs: seq<Call>)
    requires Separate(keys) && KeysWithin(s.writes, keys) && (start == [] || start in keys)
    ensures var o := ScanRange(s, start, end, limit, readTs, clock);
            && OnlyGets(cs, readTs, clock) && After(s, cs) == Run(s, o.edits) && o.result == PageOf(s, cs)
            && (forall i, j | 0 <= i < j < |cs| :: Less(cs[i].key, cs[j].key))
            && (forall i | 0 <= i < |cs| ::
                  InRange(cs[i].key, start, end) && Reached(s, start, readTs, cs[i].key))
            && (cs != [] ==> PageOf(s, cs[..|cs| - 1]).Ok? && Room(limit, |PageOf(s, cs[..|cs| - 1]).value|))
            && (o.result.Ok? && Room(limit, |o.result.value|) ==>
                  forall key | InRange(key, start, end) && Reached(s, start, readTs, key) :: Asks(cs, key))
  {
    hide Scan, Get, Run, Less, Walk, GetsOf, InRange, Reached;
    var vs := Scan(s.writes, Seek(start, readTs));
    cs := GetsOf(s, vs, start, end, limit, readTs, clock, None, 0);
    ScanKeyOrdered(s.writes, keys, Seek(start, readTs));
    WalkIsGets(s, vs, start, end, limit, readTs, clock, None, []);
    GetsAscend(s, vs, start, end, limit, readTs, clock, None, 0);
    forall i | 0 <= i < |cs| ensures Reached(s, start, readTs, cs[i].key) {
      ScanReachesExactly(s, keys, start, end, readTs, cs[i].key);
    }
    if cs != [] { GetsStop(s, vs, start, end, limit, readTs, clock, None, 0); }
    var r := PageOf(s, cs);
    if r.Ok? {
      assert Onto([], r) == r by { assert [] + r.value == r.value; }
      forall key | InRange(key, start, end) && Reached(s, start, readTs, key) && Room(limit, |r.value|)
        ensures Asks(cs, key)
      {
        ScanReachesExactly(s, keys, start, end, readTs, key);
        var v :| v in vs && v.key == key;
        GetsComplete(s, vs, start, end, limit, readTs, clock, None, 0, v);
      }
    }
  }

  /** On any keys, a scan leaves the store that a run of gets at its snapshot leaves, and answers their page. */
  lemma ScanIsGets(s: Store, start: Key, end: Key, limit: u32, readTs: Ts, clock: Clock) returns (cs: seq<Call>)
    ensures OnlyGets(cs, readTs, clock) && After(s, cs) == Run(s, ScanRange(s, start, end, limit, readTs, clock).edits)
    ensures ScanRange(s, start, end, limit, readTs, clock).result == PageOf(s, cs)
  {
    hide Scan, Get, Run, Walk, GetsOf;
    var vs := Scan(s.writes, Seek(start, readTs));
    cs := GetsOf(s, vs, start, end, limit, readTs, clock, None, 0);
    WalkIsGets(s, vs, start, end, limit, readTs, clock, None, []);
    if PageOf(s, cs).Ok? { assert [] + PageOf(s, cs).value == PageOf(s, cs).value; }
  }
}
