/** The split request of a node (node/server.rs, node/service.rs). */
module NodeServer {
  import opened Bytes
  import opened Wrappers
  import opened KeyEncoder
  import opened Records
  import opened Regions
  import opened RangeScan
  import opened Engine
  import opened Routing

  datatype Refusal = UnknownRegion(id: u64) | NoSplitKey | RouterRefused(error: RouterError)

  datatype SplitAnswer = SplitInto(left: Region, right: Region) | NoSplit(reason: Refusal)

  /** The two halves, or why there are none: the region is unknown, has no median, or does not contain the key. */
  function Answer(n: Node, id: u64, asked: Key, stored: map<Version, WriteRecord>): SplitAnswer {
    if id !in n.table.byId then NoSplit(UnknownRegion(id))
    else match SplitKey(n.table.byId[id], asked, stored)
      case None => NoSplit(NoSplitKey)
      case Some(key) =>
        match SplitError(n.table, id, key)
        case Some(e) => NoSplit(RouterRefused(e))
        case None => SplitInto(LeftOf(n.table.byId[id], key), RightOf(n.table.byId[id], key, n.nextId))
  }

  /** A request is answered with two halves exactly when it is accepted, and the median always is. */
  lemma AnswerIsAccepted(n: Node, id: u64, asked: Key, stored: map<Version, WriteRecord>)
    ensures Answer(n, id, asked, stored).SplitInto? <==> Accepted(n, Ask(id, asked, stored))
    ensures asked == [] && id in n.table.byId ==>
              (Answer(n, id, asked, stored).SplitInto?
               <==> |KeysOf(stored, n.table.byId[id].start, n.table.byId[id].end)| >= 2)
    ensures Answer(n, id, asked, stored).SplitInto? ==>
              var r, a := n.table.byId[id], Answer(n, id, asked, stored);
              && a.left.start == r.start && a.left.end == a.right.start && a.right.end == r.end
              && Splits(r.start, r.end, a.right.start) && (asked != [] ==> a.right.start == asked)
  {
    hide KeysInRange, KeysOf, InRange;
    if asked == [] && id in n.table.byId {
      MedianIsAccepted(n.table, id, stored);
      MedianSplitsEvenly(stored, n.table.byId[id].start, n.table.byId[id].end);
    }
  }

  /** Why a request is refused: the region is unknown, it has fewer than two keys and none was asked for, or
      the key asked for does not lie strictly inside it.  Only the last of these uses up an id. */
  lemma RefusedExactly(n: Node, id: u64, asked: Key, stored: map<Version, WriteRecord>)
    ensures Answer(n, id, asked, stored) == NoSplit(UnknownRegion(id)) <==> id !in n.table.byId
    ensures id in n.table.byId ==>
              var r := n.table.byId[id];
              && (Answer(n, id, asked, stored) == NoSplit(NoSplitKey)
                  <==> asked == [] && |KeysOf(stored, r.start, r.end)| < 2)
              && (Answer(n, id, asked, stored) == NoSplit(RouterRefused(RegionNotFound(asked)))
                  <==> asked != [] && !Splits(r.start, r.end, asked))
    ensures var n' := AskSplit(n, id, asked, stored);
            match Answer(n, id, asked, stored)
            case SplitInto(_, right) => right.id == n.nextId && n'.nextId == (n.nextId + 1) % TWO_64
            case NoSplit(RouterRefused(_)) => n' == n.(nextId := (n.nextId + 1) % TWO_64)
            case NoSplit(_) => n' == n
  {
    hide KeysInRange, KeysOf, InRange;
    if id in n.table.byId {
      MedianIsAccepted(n.table, id, stored);
      MedianSplitsEvenly(stored, n.table.byId[id].start, n.table.byId[id].end);
    }
  }

  class NodeState {
    const storage: StorageEngine
    const router: RegionRouter
    var nextRegionId: u64
    var raftNodes: set<u64>

    ghost function State(): Node
      reads this, router
    {
      Node(router.Contents(), nextRegionId)
    }

    /** Every region is served by a Raft node, and every Raft node serves a region. */
    ghost predicate AllServed()
      reads this, router
    {
      raftNodes == router.byId.Keys && forall id | id in router.byId :: router.byId[id].id == id
    }

    constructor (nodeId: u64, storage: StorageEngine)
      ensures this.storage == storage && fresh(router)
      ensures State() == NewNode(nodeId) && AllServed()
    {
      this.storage := storage;
      router := new RegionRouter();
      nextRegionId, raftNodes := 2, {1};
      new;
      router.InsertRegion(Region(1, [], [], [nodeId], Epoch(1, 1)));
    }

    /** An atomic fetch_add, which wraps. */
    method AllocRegionId() returns (id: u64)
      modifies this`nextRegionId
      ensures id == old(nextRegionId) && nextRegionId == (id + 1) % TWO_64
    {
      id := nextRegionId;
      nextRegionId := (nextRegionId + 1) % TWO_64;
    }

    /** Splits a region at the key asked for or, without one, at its median key.  `starts` tells
        whether a Raft node for the right half could be created. */
    method RequestSplit(id: u64, asked: Key, starts: bool) returns (answer: SplitAnswer)
      requires storage.Valid()
      modifies this, router
      ensures State() == AskSplit(old(State()), id, asked, storage.store.writes)
      ensures answer == Answer(old(State()), id, asked, storage.store.writes)
      ensures raftNodes == old(raftNodes) + if answer.SplitInto? && starts then {answer.right.id} else {}
      ensures old(AllServed()) && (answer.SplitInto? ==> starts) ==> AllServed()
    {
      hide Holds, Median, KeysInRange, SplitError, KeysOf, Less, InRange;
      ghost var stored := storage.store.writes;
      if id !in router.byId {
        return NoSplit(UnknownRegion(id));
      }
      var region := router.byId[id];
      var key := asked;
      if key == [] {
        var median := storage.FindMedianKey(region.start, region.end);
        if median.None? {
          return NoSplit(NoSplitKey);
        }
        key := median.value;
      }
      assert SplitKey(region, asked, stored) == Some(key);
      var newId := AllocRegionId();
      var split := router.SplitRegion(id, key, newId);
      assert storage.store.writes == stored;
      match split
      case Err(e) => answer := NoSplit(RouterRefused(e));
      case Ok((left, right)) =>
        if starts {
          raftNodes := raftNodes + {newId};
        }
        answer := SplitInto(left, right);
    }
  }
}
