/**
 * The marking table: every marking the search has discovered, with the dense
 * id it was given on discovery.
 */
module MarkingTable {
  import opened Wrappers
  import opened MarkingModel

  class Markings {
    var ids: map<Marking, nat>
    /** The discovered markings in id order: `order[i]` is the marking with id `i`. */
    ghost var order: seq<Marking>

    /** The ids are exactly 0 .. |ids|-1, one per marking. */
    ghost predicate Valid()
      reads this
    {
      && |order| == |ids|
      && (forall i :: 0 <= i < |order| ==> order[i] in ids && ids[order[i]] == i)
      && (forall m :: m in ids ==> ids[m] < |order| && order[ids[m]] == m)
    }

    constructor ()
      ensures Valid() && order == [] && ids == map[]
    {
      ids := map[];
      order := [];
    }

    /**
     * Stores `m` under the next id, the size of the table before the insertion.
     * Only a marking not yet in the table keeps the ids dense; the search
     * never remembers a marking twice.
     */
    method Remember(m: Marking) returns (id: nat)
      requires Valid()
      modifies this
      ensures id == old(|ids|)
      ensures ids == old(ids)[m := id]
      ensures m !in old(ids) ==> Valid() && order == old(order) + [m] && id == |old(order)|
      ensures m !in old(ids) ==> Valid() && LookUp(m) == Some(id)
      ensures m in old(ids) ==> order == old(order)
    {
      id := |ids|;
      order := if m in ids then order else order + [m];
      ids := ids[m := id];
    }

    /** The id of `m`, if it has been remembered. */
    function LookUp(m: Marking): (r: Option<nat>)
      reads this
      requires Valid()
      ensures r.Some? <==> m in order
      ensures r.Some? ==> r.value < |order| && order[r.value] == m
    {
      if m in ids then Some(ids[m]) else None
    }
  }

  /** A marking has an id exactly when it is in the discovery order. */
  lemma KeyIffListed(markings: Markings, m: Marking)
    requires markings.Valid()
    ensures m in markings.ids <==> m in markings.order
  {
    if m in markings.ids {
      assert markings.order[markings.ids[m]] == m;
    }
  }
}
