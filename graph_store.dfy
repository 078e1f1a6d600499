/**
 * The graph database as the lookup service sees it. Only the index on the
 * `segmentId` property of `Segment` nodes matters: the uniqueness constraint
 * on that property makes it a partial function from segment IDs to nodes,
 * and a node is known to the service only by its identifier.
 */
module GraphStore {
  import opened Wrappers

  /** A segment identifier sent by a client. */
  type SegmentId = int

  /** A node identifier inside the store. */
  type NodeId = nat

  /** A `Segment` node, seen through its identifier. */
  datatype Node = Node(id: NodeId)

  /** The segment index: which node, if any, carries each segment ID. */
  type Store = map<SegmentId, NodeId>

  /** `findNode(Segment, "segmentId", id)`: the node carrying `id`, or null. */
  function FindNode(store: Store, id: SegmentId): Option<Node>
  {
    if id in store then Some(Node(store[id])) else None
  }

  /** `getNodeById(h)`: the node whose identifier is `h`. */
  function GetNodeById(h: NodeId): Node
  {
    Node(h)
  }
}
