/**
 * The resolution cache: a table from segment ID to node ID filled on demand
 * by the resolver. The same per-key contract serves both caches of the
 * service, the unbounded `segmentMap` (its `computeIfAbsent`) and the
 * loading cache `segments` (its `get`). A failed resolution stores nothing.
 */
module ResolutionCache {
  import opened Wrappers
  import opened GraphStore
  import opened Resolver

  /** The cache table. */
  type Table = map<SegmentId, NodeId>

  /**
   * The effect of one cache operation: what it returns, the table
   * afterwards and how many times it ran the resolver.
   */
  datatype CacheRun<T> = CacheRun(result: Result<T, Failure>, table: Table, calls: nat)

  /** Every entry of `m` is the store's answer for its key. */
  ghost predicate Consistent(m: Table, store: Store)
  {
    forall k :: k in m ==> k in store && m[k] == store[k]
  }

  /** `m'` keeps every entry of `m`, with the same node ID. */
  ghost predicate Extends(m': Table, m: Table)
  {
    forall k :: k in m ==> k in m' && m'[k] == m[k]
  }

  /** The distinct segment IDs of a request. */
  ghost function Elements(ids: seq<SegmentId>): set<SegmentId>
  {
    if ids == [] then {} else {ids[0]} + Elements(ids[1..])
  }

  /** `Elements` holds exactly the IDs that occur in the request. */
  lemma {:induction false} ElementsMembership(ids: seq<SegmentId>)
    ensures forall x :: x in Elements(ids) <==> x in ids
  {
    if ids != [] {
      ElementsMembership(ids[1..]);
      assert forall x :: x in ids <==> x == ids[0] || x in ids[1..];
    }
  }

  /** `computeIfAbsent(id, resolver)` on table `m`. */
  function Compute(m: Table, store: Store, id: SegmentId): CacheRun<NodeId>
  {
    if id in m then CacheRun(Ok(m[id]), m, 0)
    else match GetSegmentNodeId(store, id)
      case Err(e) => CacheRun(Err(e), m, 1)
      case Ok(h) => CacheRun(Ok(h), m[id := h], 1)
  }

  /** Put `xs` in front of a successful result; a failure stays as it is. */
  function PrependAll(xs: seq<NodeId>, r: Result<seq<NodeId>, Failure>): Result<seq<NodeId>, Failure>
  {
    match r
    case Ok(ys) => Ok(xs + ys)
    case Err(e) => Err(e)
  }

  lemma PrependNothing(r: Result<seq<NodeId>, Failure>)
    ensures PrependAll([], r) == r
  {
    if r.Ok? {
      assert [] + r.value == r.value;
    }
  }

  lemma PrependTwice(xs: seq<NodeId>, ys: seq<NodeId>, r: Result<seq<NodeId>, Failure>)
    ensures PrependAll(xs, PrependAll(ys, r)) == PrependAll(xs + ys, r)
  {
    if r.Ok? {
      assert xs + (ys + r.value) == (xs + ys) + r.value;
    }
  }

  /**
   * A cached batch lookup on table `m`: each segment ID in order goes
   * through the cache and the node ID of the node found for it is
   * collected; the first failing resolution aborts the batch, keeping
   * whatever entries were stored before it.
   */
  function CachedBatch(m: Table, store: Store, ids: seq<SegmentId>): CacheRun<seq<NodeId>>
    decreases |ids|
  {
    if ids == [] then CacheRun(Ok([]), m, 0)
    else
      var p := Compute(m, store, ids[0]);
      match p.result
      case Err(e) => CacheRun(Err(e), p.table, p.calls)
      case Ok(h) =>
        var rest := CachedBatch(p.table, store, ids[1..]);
        CacheRun(PrependAll([GetNodeById(h).id], rest.result), rest.table, p.calls + rest.calls)
  }

  /** The values a table holds for `ids`, in order. */
  function CachedValues(m: Table, ids: seq<SegmentId>): (r: seq<NodeId>)
    requires forall i :: 0 <= i < |ids| ==> ids[i] in m
  {
    if ids == [] then [] else [m[ids[0]]] + CachedValues(m, ids[1..])
  }

  /**
   * A batch never removes or overwrites an entry and adds entries only for
   * the requested IDs.
   */
  lemma {:induction false} BatchKeepsEntries(m: Table, store: Store, ids: seq<SegmentId>)
    ensures var o := CachedBatch(m, store, ids);
      Extends(o.table, m) && o.table.Keys <= m.Keys + Elements(ids)
    decreases |ids|
  {
    if ids != [] {
      var p := Compute(m, store, ids[0]);
      if p.result.Ok? {
        BatchKeepsEntries(p.table, store, ids[1..]);
      }
    }
  }

  /**
   * A batch runs the resolver at most once per distinct requested ID that
   * was not cached before it.
   */
  lemma {:induction false} BatchCallBound(m: Table, store: Store, ids: seq<SegmentId>)
    ensures CachedBatch(m, store, ids).calls <= |Elements(ids) - m.Keys|
    decreases |ids|
  {
    if ids != [] {
      var id := ids[0];
      if id in m {
        BatchCallBound(m, store, ids[1..]);
        assert Elements(ids) - m.Keys == Elements(ids[1..]) - m.Keys;
      } else if id !in store {
        assert id in Elements(ids) - m.Keys;
      } else {
        var m' := m[id := store[id]];
        BatchCallBound(m', store, ids[1..]);
        MissStep(m, store, ids);
      }
    }
  }

  /** Unfolding a batch whose first ID is a resolvable miss. */
  lemma MissStep(m: Table, store: Store, ids: seq<SegmentId>)
    requires ids != [] && ids[0] !in m && ids[0] in store
    ensures var m' := m[ids[0] := store[ids[0]]];
      && CachedBatch(m, store, ids).calls == CachedBatch(m', store, ids[1..]).calls + 1
      && |Elements(ids) - m.Keys| == |Elements(ids[1..]) - m'.Keys| + 1
  {
    var m' := m[ids[0] := store[ids[0]]];
    assert m'.Keys == m.Keys + {ids[0]};
    MissCount(m, m', ids[0], ids);
  }

  /** Storing a miss for `ids[0]` takes one distinct uncached ID off the count. */
  lemma MissCount(m: Table, m': Table, id: SegmentId, ids: seq<SegmentId>)
    requires ids != [] && ids[0] == id && id !in m
    requires m'.Keys == m.Keys + {id}
    ensures |Elements(ids) - m.Keys| == |Elements(ids[1..]) - m'.Keys| + 1
  {
    var s := Elements(ids[1..]) - m'.Keys;
    assert Elements(ids) - m.Keys == s + {id};
    assert id !in s;
  }

  /**
   * A batch succeeds exactly when every requested ID is cached already or
   * has a node; when it fails, the failing ID has neither, and the table
   * gained no entry for it.
   */
  lemma {:induction false} BatchFailure(m: Table, store: Store, ids: seq<SegmentId>)
    ensures var o := CachedBatch(m, store, ids);
      && (o.result.Ok? <==> forall i :: 0 <= i < |ids| ==> ids[i] in m || ids[i] in store)
      && (o.result.Err? ==>
            var x := o.result.error.segmentId;
            x in ids && x !in m && x !in store && x !in o.table)
    decreases |ids|
  {
    if ids != [] {
      var id := ids[0];
      var p := Compute(m, store, id);
      if p.result.Ok? {
        BatchFailure(p.table, store, ids[1..]);
        var o := CachedBatch(m, store, ids);
        assert forall i :: 1 <= i < |ids| ==> ids[i] == ids[1..][i - 1];
        assert (forall i :: 0 <= i < |ids| ==> ids[i] in m || ids[i] in store) <==>
               (forall i :: 0 <= i < |ids[1..]| ==> ids[1..][i] in p.table || ids[1..][i] in store);
        if o.result.Err? {
          var x := o.result.error.segmentId;
          assert x in ids[1..];
          BatchKeepsEntries(p.table, store, ids[1..]);
        }
      }
    }
  }

  /**
   * A failing batch fails at the first requested ID that is neither cached
   * nor in the store: every ID before it is cached or has a node.
   */
  lemma {:induction false} BatchFailureIndex(m: Table, store: Store, ids: seq<SegmentId>) returns (j: nat)
    requires CachedBatch(m, store, ids).result.Err?
    ensures j < |ids| && ids[j] !in m && ids[j] !in store
    ensures forall i :: 0 <= i < j ==> ids[i] in m || ids[i] in store
    ensures CachedBatch(m, store, ids).result.error == NodeNotFound(ids[j])
    decreases |ids|
  {
    var p := Compute(m, store, ids[0]);
    if p.result.Err? {
      j := 0;
    } else {
      var j' := BatchFailureIndex(p.table, store, ids[1..]);
      j := j' + 1;
      assert ids[j] == ids[1..][j'];
      assert forall i :: 1 <= i < j ==> ids[i] == ids[1..][i - 1];
    }
  }

  /**
   * A batch whose first unresolvable, uncached ID is at position `j` stops
   * there: it fails naming that ID, and its table and resolver count are
   * those of the batch of the IDs before `j`, plus the one failed resolver
   * run. No ID after `j` is resolved or cached.
   */
  lemma {:induction false} BatchFailurePrefix(m: Table, store: Store, ids: seq<SegmentId>, j: nat)
    requires j < |ids| && ids[j] !in m && ids[j] !in store
    requires forall i :: 0 <= i < j ==> ids[i] in m || ids[i] in store
    ensures var o := CachedBatch(m, store, ids);
      var before := CachedBatch(m, store, ids[..j]);
      && before.result.Ok?
      && o.result == Err(NodeNotFound(ids[j]))
      && o.table == before.table
      && o.calls == before.calls + 1
    decreases j
  {
    if j == 0 {
      assert ids[..0] == [];
    } else {
      var p := Compute(m, store, ids[0]);
      assert p.result.Ok?;
      assert ids[j] != ids[0];
      assert forall i :: 1 <= i < j ==> ids[i] == ids[1..][i - 1];
      BatchFailurePrefix(p.table, store, ids[1..], j - 1);
      assert ids[..j][0] == ids[0];
      assert ids[..j][1..] == ids[1..][..j - 1];
    }
  }

  /**
   * A failed batch gave up at the position `j` returned, where the failing
   * ID stands:
   * every ID before it was cached or had a node, the table gained exactly
   * the IDs before it, and the resolver ran once per distinct new ID before
   * it plus once for the failing ID.
   */
  lemma BatchFailureStops(m: Table, store: Store, ids: seq<SegmentId>) returns (j: nat)
    requires CachedBatch(m, store, ids).result.Err?
    ensures var o := CachedBatch(m, store, ids);
      && j < |ids| && ids[j] == o.result.error.segmentId
      && (forall i :: 0 <= i < j ==> ids[i] in m || ids[i] in store)
      && o.table.Keys == m.Keys + Elements(ids[..j])
      && o.calls == |Elements(ids[..j]) - m.Keys| + 1
  {
    j := BatchFailureIndex(m, store, ids);
    BatchFailurePrefix(m, store, ids, j);
    BatchSuccessKeys(m, store, ids[..j]);
    BatchSuccessCalls(m, store, ids[..j]);
  }

  /**
   * Segment 1 has no node and 2 has one: on an empty table the batch [1, 2]
   * fails on 1 after one resolver run, and 2 is neither resolved nor cached.
   */
  lemma AbortExample(h: NodeId)
    ensures CachedBatch(map[], map[2 := h], [1, 2]) == CacheRun(Err(NodeNotFound(1)), map[], 1)
  {
  }

  /**
   * After a successful batch the table holds exactly the old keys plus the
   * requested IDs.
   */
  lemma {:induction false} BatchSuccessKeys(m: Table, store: Store, ids: seq<SegmentId>)
    requires CachedBatch(m, store, ids).result.Ok?
    ensures CachedBatch(m, store, ids).table.Keys == m.Keys + Elements(ids)
    decreases |ids|
  {
    if ids != [] {
      var p := Compute(m, store, ids[0]);
      BatchSuccessKeys(p.table, store, ids[1..]);
    }
  }

  /**
   * A successful batch ran the resolver exactly once per distinct requested
   * ID that was not cached before it.
   */
  lemma {:induction false} BatchSuccessCalls(m: Table, store: Store, ids: seq<SegmentId>)
    requires CachedBatch(m, store, ids).result.Ok?
    ensures CachedBatch(m, store, ids).calls == |Elements(ids) - m.Keys|
    decreases |ids|
  {
    if ids != [] {
      var id := ids[0];
      if id in m {
        BatchSuccessCalls(m, store, ids[1..]);
        assert Elements(ids) - m.Keys == Elements(ids[1..]) - m.Keys;
      } else {
        var m' := m[id := store[id]];
        BatchSuccessCalls(m', store, ids[1..]);
        MissStep(m, store, ids);
      }
    }
  }

  /**
   * A successful batch returns, for each requested ID in order, the entry
   * the table holds for it afterwards.
   */
  lemma {:induction false} BatchSuccessValues(m: Table, store: Store, ids: seq<SegmentId>)
    requires CachedBatch(m, store, ids).result.Ok?
    ensures var o := CachedBatch(m, store, ids);
      && (forall i :: 0 <= i < |ids| ==> ids[i] in o.table)
      && o.result.value == CachedValues(o.table, ids)
    decreases |ids|
  {
    if ids != [] {
      var o := CachedBatch(m, store, ids);
      var p := Compute(m, store, ids[0]);
      BatchSuccessValues(p.table, store, ids[1..]);
      BatchKeepsEntries(p.table, store, ids[1..]);
      assert forall i :: 1 <= i < |ids| ==> ids[i] == ids[1..][i - 1];
      assert o.table[ids[0]] == p.result.value;
    }
  }

  /**
   * A batch over IDs that are all cached is a pure read: it returns the
   * cached values, leaves the table as it is and never runs the resolver.
   */
  lemma {:induction false} WarmBatch(m: Table, store: Store, ids: seq<SegmentId>)
    requires forall i :: 0 <= i < |ids| ==> ids[i] in m
    ensures CachedBatch(m, store, ids) == CacheRun(Ok(CachedValues(m, ids)), m, 0)
    decreases |ids|
  {
    if ids != [] {
      assert forall i :: 0 <= i < |ids[1..]| ==> ids[1..][i] == ids[i + 1];
      WarmBatch(m, store, ids[1..]);
    }
  }

  /**
   * Repeating a successful batch on the table it left gives the same answer
   * without running the resolver and without changing the table.
   */
  lemma RepeatBatch(m: Table, store: Store, ids: seq<SegmentId>)
    requires CachedBatch(m, store, ids).result.Ok?
    ensures var o := CachedBatch(m, store, ids);
      CachedBatch(o.table, store, ids) == CacheRun(o.result, o.table, 0)
  {
    var o := CachedBatch(m, store, ids);
    BatchSuccessValues(m, store, ids);
    WarmBatch(o.table, store, ids);
  }

  /**
   * No negative caching: after a batch failed on a segment that has no node,
   * a later lookup of that segment runs the resolver again, and once a node
   * for it exists in the store it is found and cached.
   */
  lemma RetryAfterFailure(m: Table, store: Store, ids: seq<SegmentId>, later: Store)
    requires CachedBatch(m, store, ids).result.Err?
    ensures var o := CachedBatch(m, store, ids);
      var x := o.result.error.segmentId;
      && Compute(o.table, later, x).calls == 1
      && (x in later ==> Compute(o.table, later, x) == CacheRun(Ok(later[x]), o.table[x := later[x]], 1))
  {
    BatchFailure(m, store, ids);
  }

  /** A batch run against a store never makes a table that agrees with it disagree. */
  lemma {:induction false} BatchConsistent(m: Table, store: Store, ids: seq<SegmentId>)
    requires Consistent(m, store)
    ensures Consistent(CachedBatch(m, store, ids).table, store)
    decreases |ids|
  {
    if ids != [] {
      var p := Compute(m, store, ids[0]);
      if p.result.Ok? {
        BatchConsistent(p.table, store, ids[1..]);
      }
    }
  }

  /**
   * The map of one segment cache. `entries` is the table; `resolverCalls`
   * counts the resolver runs this cache has made.
   */
  class SegmentCache {
    var entries: Table
    ghost var resolverCalls: nat

    /** A cache starts empty. */
    constructor ()
      ensures entries == map[] && resolverCalls == 0
    {
      entries := map[];
      resolverCalls := 0;
    }

    /**
     * On a hit, return the cached node ID without running the resolver; on a
     * miss, run the resolver once and store and return its answer; if the
     * resolver fails, store nothing and fail.
     */
    method ComputeIfAbsent(store: Store, id: SegmentId) returns (r: Result<NodeId, Failure>)
      modifies this
      ensures id in old(entries) ==>
        r == Ok(old(entries)[id]) && entries == old(entries) && resolverCalls == old(resolverCalls)
      ensures id !in old(entries) && id in store ==>
        r == Ok(store[id]) && entries == old(entries)[id := store[id]]
        && resolverCalls == old(resolverCalls) + 1
      ensures id !in old(entries) && id !in store ==>
        r == Err(NodeNotFound(id)) && entries == old(entries) && resolverCalls == old(resolverCalls) + 1
      ensures var c := Compute(old(entries), store, id);
        r == c.result && entries == c.table && resolverCalls == old(resolverCalls) + c.calls
    {
      if id in entries {
        r := Ok(entries[id]);
      } else {
        r := GetSegmentNodeId(store, id);
        resolverCalls := resolverCalls + 1;
        if r.Ok? {
          entries := entries[id := r.value];
        }
      }
    }

    /**
     * The loop of the cached endpoints: look up each segment ID through the
     * cache and collect the identifier of the node fetched for it. The
     * resolver's failure propagates out of the loop and ends the batch.
     */
    method BatchLookup(store: Store, segmentIds: seq<SegmentId>) returns (r: Result<seq<NodeId>, Failure>)
      modifies this
      ensures var o := CachedBatch(old(entries), store, segmentIds);
        r == o.result && entries == o.table && resolverCalls == old(resolverCalls) + o.calls
    {
      var idsFound: seq<NodeId> := [];
      var i := 0;
      assert segmentIds[0..] == segmentIds;
      PrependNothing(CachedBatch(old(entries), store, segmentIds).result);
      while i < |segmentIds|
        invariant 0 <= i <= |segmentIds|
        invariant var whole := CachedBatch(old(entries), store, segmentIds);
          var rest := CachedBatch(entries, store, segmentIds[i..]);
          && whole.result == PrependAll(idsFound, rest.result)
          && whole.table == rest.table
          && old(resolverCalls) + whole.calls == resolverCalls + rest.calls
      {
        assert segmentIds[i..][1..] == segmentIds[i + 1..];
        var h := ComputeIfAbsent(store, segmentIds[i]);
        if h.Err? {
          return Err(h.error);
        }
        var node := GetNodeById(h.value);
        PrependTwice(idsFound, [node.id], CachedBatch(entries, store, segmentIds[i + 1..]).result);
        idsFound := idsFound + [node.id];
        i := i + 1;
      }
      assert segmentIds[i..] == [];
      assert idsFound + [] == idsFound;
      r := Ok(idsFound);
    }
  }
}
