/**
 * The meaning of the uncached lookup: every requested segment ID, in order,
 * is looked up in the segment index; the identifier of each node found is
 * collected and IDs with no node are skipped.
 */
module UncachedLookup {
  import opened Wrappers
  import opened GraphStore

  /** What one requested ID contributes to the answer: its node's ID, or nothing. */
  function Found(store: Store, id: SegmentId): seq<NodeId>
  {
    match FindNode(store, id)
    case None => []
    case Some(node) => [node.id]
  }

  /** The answer of the uncached lookup for `ids`. */
  function Uncached(store: Store, ids: seq<SegmentId>): seq<NodeId>
  {
    if ids == [] then [] else Found(store, ids[0]) + Uncached(store, ids[1..])
  }

  /** Looking up two requests one after the other answers their concatenation. */
  lemma {:induction false} UncachedAppend(store: Store, a: seq<SegmentId>, b: seq<SegmentId>)
    ensures Uncached(store, a + b) == Uncached(store, a) + Uncached(store, b)
  {
    if a == [] {
      assert a + b == b;
    } else {
      assert (a + b)[1..] == a[1..] + b;
      UncachedAppend(store, a[1..], b);
    }
  }

  /**
   * The answer is never longer than the request, and it is exactly as long
   * precisely when every requested ID has a node.
   */
  lemma {:induction false} UncachedLength(store: Store, ids: seq<SegmentId>)
    ensures |Uncached(store, ids)| <= |ids|
    ensures |Uncached(store, ids)| == |ids| <==> forall i :: 0 <= i < |ids| ==> ids[i] in store
  {
    if ids != [] {
      UncachedLength(store, ids[1..]);
      assert forall i :: 1 <= i < |ids| ==> ids[i] == ids[1..][i - 1];
    }
  }

  /** When every requested ID has a node, the answer holds its node ID at the same position. */
  lemma {:induction false} UncachedAllFound(store: Store, ids: seq<SegmentId>)
    requires forall i :: 0 <= i < |ids| ==> ids[i] in store
    ensures |Uncached(store, ids)| == |ids|
    ensures forall i :: 0 <= i < |ids| ==> Uncached(store, ids)[i] == store[ids[i]]
  {
    if ids != [] {
      assert forall i :: 1 <= i < |ids| ==> ids[i] == ids[1..][i - 1];
      UncachedAllFound(store, ids[1..]);
    }
  }

  /** A node ID is in the answer exactly when some requested ID resolves to it. */
  lemma {:induction false} UncachedMembers(store: Store, ids: seq<SegmentId>)
    ensures forall h :: h in Uncached(store, ids) <==>
      exists i :: 0 <= i < |ids| && ids[i] in store && store[ids[i]] == h
  {
    if ids != [] {
      UncachedMembers(store, ids[1..]);
      forall h | h in Uncached(store, ids[1..])
        ensures exists i :: 0 <= i < |ids| && ids[i] in store && store[ids[i]] == h
      {
        var j :| 0 <= j < |ids[1..]| && ids[1..][j] in store && store[ids[1..][j]] == h;
        assert ids[j + 1] == ids[1..][j];
      }
      forall h, i | 0 <= i < |ids| && ids[i] in store && store[ids[i]] == h
        ensures h in Uncached(store, ids)
      {
        if i > 0 {
          assert ids[1..][i - 1] == ids[i];
        }
      }
    }
  }

  /**
   * IDs 5 and 9 have nodes A and B and 404 has none: the request
   * [5, 9, 5, 404] answers [A, B, A], once per occurrence, without 404.
   */
  lemma DuplicatesAndMisses(a: NodeId, b: NodeId)
    ensures Uncached(map[5 := a, 9 := b], [5, 9, 5, 404]) == [a, b, a]
  {
    var store := map[5 := a, 9 := b];
    UncachedAppend(store, [5, 9], [5, 404]);
    UncachedAppend(store, [5], [9]);
    UncachedAppend(store, [5], [404]);
  }
}
