/**
 * The lookup service: one uncached endpoint and two cached ones, each taking
 * a list of segment IDs and answering the node IDs found for them. The
 * caches are shared by every request for the life of the process.
 */
module Service {
  import opened Wrappers
  import opened GraphStore
  import opened Resolver
  import opened ResolutionCache
  import opened UncachedLookup

  /**
   * Over a table that agrees with the store, a cached batch succeeds exactly
   * when every requested ID has a node, and then answers what the uncached
   * lookup answers.
   */
  lemma {:induction false} CachedAgreesWithUncached(m: Table, store: Store, ids: seq<SegmentId>)
    requires Consistent(m, store)
    ensures var o := CachedBatch(m, store, ids);
      && (o.result.Ok? <==> forall i :: 0 <= i < |ids| ==> ids[i] in store)
      && (o.result.Ok? ==> o.result.value == Uncached(store, ids))
    decreases |ids|
  {
    if ids != [] {
      var id := ids[0];
      var p := Compute(m, store, id);
      assert forall i :: 1 <= i < |ids| ==> ids[i] == ids[1..][i - 1];
      if p.result.Ok? {
        CachedAgreesWithUncached(p.table, store, ids[1..]);
      }
    }
  }

  class Service {
    /** The graph database the service was created with. */
    const db: Store
    /** The size-bounded loading cache (eviction not modelled). */
    const segments: SegmentCache
    /** The unbounded primitive map filled by `computeIfAbsent`. */
    const segmentMap: SegmentCache

    /** The two caches are separate tables, and each agrees with the store. */
    ghost predicate Valid()
      reads this, segments, segmentMap
    {
      && segments != segmentMap
      && Consistent(segments.entries, db)
      && Consistent(segmentMap.entries, db)
    }

    /** Both caches start empty. */
    constructor (graphDatabaseService: Store)
      ensures Valid() && db == graphDatabaseService
      ensures fresh(segments) && fresh(segmentMap)
      ensures segments.entries == map[] && segments.resolverCalls == 0
      ensures segmentMap.entries == map[] && segmentMap.resolverCalls == 0
    {
      db := graphDatabaseService;
      segments := new SegmentCache();
      segmentMap := new SegmentCache();
    }

    /**
     * `/lookup`: look each requested ID up in the index; collect the ID of
     * each node found, in request order, and skip IDs with no node.
     */
    method Lookup(segmentIds: seq<SegmentId>) returns (idsFound: seq<NodeId>)
      ensures idsFound == Uncached(db, segmentIds)
    {
      idsFound := [];
      for i := 0 to |segmentIds|
        invariant idsFound == Uncached(db, segmentIds[..i])
      {
        var node := FindNode(db, segmentIds[i]);
        if node.Some? {
          idsFound := idsFound + [node.value.id];
        }
        assert segmentIds[..i + 1] == segmentIds[..i] + [segmentIds[i]];
        UncachedAppend(db, segmentIds[..i], [segmentIds[i]]);
      }
      assert segmentIds[..|segmentIds|] == segmentIds;
    }

    /**
     * `/cachedlookup`: the batch through the loading cache `segments`. It
     * answers what `/lookup` answers when every ID has a node. Otherwise it
     * stops at the first ID that has none and fails, having cached exactly
     * the IDs before it and nothing for the failing ID or any after it. The
     * other cache is untouched.
     */
    method CachedLookup(segmentIds: seq<SegmentId>) returns (r: Result<seq<NodeId>, Failure>)
      requires Valid()
      modifies segments
      ensures Valid()
      ensures var o := CachedBatch(old(segments.entries), db, segmentIds);
        r == o.result && segments.entries == o.table
        && segments.resolverCalls == old(segments.resolverCalls) + o.calls
      ensures segmentMap.entries == old(segmentMap.entries)
      ensures Extends(segments.entries, old(segments.entries))
      ensures r.Ok? <==> forall i :: 0 <= i < |segmentIds| ==> segmentIds[i] in db
      ensures r.Ok? ==> r.value == Uncached(db, segmentIds)
      ensures r.Ok? ==>
        && segments.entries.Keys == old(segments.entries.Keys) + Elements(segmentIds)
        && segments.resolverCalls
           == old(segments.resolverCalls) + |Elements(segmentIds) - old(segments.entries.Keys)|
      ensures r.Err? ==>
        r.error.segmentId in segmentIds && r.error.segmentId !in db
        && r.error.segmentId !in segments.entries
      ensures r.Err? ==>
        var o := CachedBatch(old(segments.entries), db, segmentIds);
        exists j :: StoppedAt(old(segments.entries), db, segmentIds, o, j)
    {
      ghost var m := segments.entries;
      r := segments.BatchLookup(db, segmentIds);
      CachedBatchFacts(m, db, segmentIds);
      if r.Err? {
        CachedFailureFacts(m, db, segmentIds);
      }
    }

    /**
     * `/cachedlookup2`: the batch through the unbounded map `segmentMap`,
     * with the same promises as `/cachedlookup` about its own cache.
     */
    method CachedLookup2(segmentIds: seq<SegmentId>) returns (r: Result<seq<NodeId>, Failure>)
      requires Valid()
      modifies segmentMap
      ensures Valid()
      ensures var o := CachedBatch(old(segmentMap.entries), db, segmentIds);
        r == o.result && segmentMap.entries == o.table
        && segmentMap.resolverCalls == old(segmentMap.resolverCalls) + o.calls
      ensures segments.entries == old(segments.entries)
      ensures Extends(segmentMap.entries, old(segmentMap.entries))
      ensures r.Ok? <==> forall i :: 0 <= i < |segmentIds| ==> segmentIds[i] in db
      ensures r.Ok? ==> r.value == Uncached(db, segmentIds)
      ensures r.Ok? ==>
        && segmentMap.entries.Keys == old(segmentMap.entries.Keys) + Elements(segmentIds)
        && segmentMap.resolverCalls
           == old(segmentMap.resolverCalls) + |Elements(segmentIds) - old(segmentMap.entries.Keys)|
      ensures r.Err? ==>
        r.error.segmentId in segmentIds && r.error.segmentId !in db
        && r.error.segmentId !in segmentMap.entries
      ensures r.Err? ==>
        var o := CachedBatch(old(segmentMap.entries), db, segmentIds);
        exists j :: StoppedAt(old(segmentMap.entries), db, segmentIds, o, j)
    {
      ghost var m := segmentMap.entries;
      r := segmentMap.BatchLookup(db, segmentIds);
      CachedBatchFacts(m, db, segmentIds);
      if r.Err? {
        CachedFailureFacts(m, db, segmentIds);
      }
    }
  }

  /** What a cached endpoint promises, for a table that agrees with the store. */
  lemma CachedBatchFacts(m: Table, store: Store, ids: seq<SegmentId>)
    requires Consistent(m, store)
    ensures var o := CachedBatch(m, store, ids);
      && Consistent(o.table, store)
      && Extends(o.table, m)
      && (o.result.Ok? <==> forall i :: 0 <= i < |ids| ==> ids[i] in store)
      && (o.result.Ok? ==> o.result.value == Uncached(store, ids))
      && (o.result.Ok? ==> o.table.Keys == m.Keys + Elements(ids) && o.calls == |Elements(ids) - m.Keys|)
      && (o.result.Err? ==>
            o.result.error.segmentId in ids && o.result.error.segmentId !in store
            && o.result.error.segmentId !in o.table)
  {
    var o := CachedBatch(m, store, ids);
    BatchConsistent(m, store, ids);
    BatchKeepsEntries(m, store, ids);
    BatchFailure(m, store, ids);
    CachedAgreesWithUncached(m, store, ids);
    if o.result.Ok? {
      BatchSuccessKeys(m, store, ids);
      BatchSuccessCalls(m, store, ids);
    }
  }

  /**
   * A failed batch over `ids` stopped at position `j`: the failing ID stands
   * there, every ID before it has a node, the table gained exactly the IDs
   * before it, and the resolver ran once per distinct new ID before it plus
   * once for the failing ID.
   */
  ghost predicate StoppedAt(m: Table, store: Store, ids: seq<SegmentId>, o: CacheRun<seq<NodeId>>, j: int)
    requires o.result.Err?
  {
    && 0 <= j < |ids| && ids[j] == o.result.error.segmentId
    && (forall i :: 0 <= i < j ==> ids[i] in store)
    && o.table.Keys == m.Keys + Elements(ids[..j])
    && o.calls == |Elements(ids[..j]) - m.Keys| + 1
  }

  /**
   * A cached batch that fails over a table that agrees with the store stops
   * at the first requested ID without a node.
   */
  lemma CachedFailureFacts(m: Table, store: Store, ids: seq<SegmentId>)
    requires Consistent(m, store)
    requires CachedBatch(m, store, ids).result.Err?
    ensures exists j :: StoppedAt(m, store, ids, CachedBatch(m, store, ids), j)
  {
    var j := BatchFailureStops(m, store, ids);
    forall i | 0 <= i < j
      ensures ids[i] in store
    {
      var k := ids[i];
      assert k in m || k in store;
      if k in m {
        assert Consistent(m, store);
        assert k in store;
      }
    }
    assert StoppedAt(m, store, ids, CachedBatch(m, store, ids), j);
  }
}
