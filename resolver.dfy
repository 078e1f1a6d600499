/**
 * The resolver: the authoritative, uncached translation of one segment ID
 * into a node ID. The service has it twice with the same code, as the static
 * `getSegmentNodeId` (loader of the bounded cache) and as
 * `GetSegmentNodeId.applyAsLong` (mapping function of the unbounded map).
 */
module Resolver {
  import opened Wrappers
  import opened GraphStore

  /**
   * The resolver's failure: the index has no node for the segment, and
   * asking the missing node for its identifier throws.
   */
  datatype Failure = NodeNotFound(segmentId: SegmentId)

  /** Resolve `id` against the store; fails exactly when no node carries it. */
  function GetSegmentNodeId(store: Store, id: SegmentId): (r: Result<NodeId, Failure>)
    ensures r.Ok? <==> id in store
    ensures r.Ok? ==> r.value == store[id]
    ensures r.Err? ==> r.error == NodeNotFound(id)
  {
    match FindNode(store, id)
    case None => Err(NodeNotFound(id))
    case Some(node) => Ok(node.id)
  }
}
