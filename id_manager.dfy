/**
 * The id allocator used by the shader generators (IdManager.cpp): a counter of never-issued ids
 * and a first-in first-out list of ids handed back for reuse.
 */
module Ids {

  class IdManager {
    /** The next id never issued before. */
    var nextId: int
    /** Ids handed back, oldest first. */
    var freedIds: seq<int>

    constructor ()
      ensures nextId == 1 && freedIds == []
    {
      nextId := 1;
      freedIds := [];
    }

    /** Reissues the oldest freed id if there is one, otherwise issues a new id. */
    method Get() returns (id: int)
      modifies this
      ensures old(freedIds) != [] ==> id == old(freedIds)[0] && freedIds == old(freedIds)[1..] && nextId == old(nextId)
      ensures old(freedIds) == [] ==> id == old(nextId) && nextId == old(nextId) + 1 && freedIds == []
    {
      if freedIds != [] {
        id := freedIds[0];
        freedIds := freedIds[1..];
        return;
      }
      id := nextId;
      nextId := nextId + 1;
    }

    /** Hands `id` back; it is reissued after every id freed before it. */
    method Free(id: int)
      modifies this
      ensures freedIds == old(freedIds) + [id] && nextId == old(nextId)
    {
      freedIds := freedIds + [id];
    }

    /** Forgets every issued and freed id. */
    method Reset()
      modifies this
      ensures nextId == 1 && freedIds == []
    {
      nextId := 1;
      freedIds := [];
    }
  }

  /**
   * A fresh manager that is never handed an id back issues 1, 2, 3, ... in that order, so the
   * ids it issues are pairwise distinct.
   */
  method IssueFresh(n: nat) returns (ids: seq<int>)
    ensures |ids| == n
    ensures forall i :: 0 <= i < n ==> ids[i] == i + 1
    ensures forall i, j :: 0 <= i < j < n ==> ids[i] != ids[j]
  {
    var m := new IdManager();
    ids := [];
    while |ids| < n
      invariant |ids| <= n
      invariant m.freedIds == [] && m.nextId == |ids| + 1
      invariant forall i :: 0 <= i < |ids| ==> ids[i] == i + 1
    {
      var id := m.Get();
      ids := ids + [id];
    }
  }

  /** An id freed into an empty list is the next one issued, and the counter does not move. */
  method FreeThenGet(m: IdManager, id: int) returns (again: int)
    requires m.freedIds == []
    modifies m
    ensures again == id
    ensures m.freedIds == [] && m.nextId == old(m.nextId)
  {
    m.Free(id);
    again := m.Get();
  }
}
