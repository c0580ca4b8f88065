/** What happens to the requested block when it is found on the branch (src/single_client.cpp:460-490). */
module Replacement {
  import opened Paths
  import opened Bytes
  import opened Slots
  import opened BranchLoop

  datatype Operation = Read | Write | Clear

  /** Lines 461-466: the operation on the slot of the requested block. */
  function Apply(st: Store, p: nat, op: Operation, value: Data): (br: seq<Slot>)
    requires p < |st.branch| && st.branch[p].Full?
    ensures |br| == |st.branch|
  {
    match op
    case Read => st.branch
    case Write => st.branch[p := Full(st.branch[p].id, value)]
    case Clear => st.branch[p := Free]
  }

  /** Where the requested block may go: below the bucket after the deepest one that the fetched
      branch shares with the path to its new leaf. */
  function Reach(c: Context, newLeaf: nat): nat
    requires ValidLeaf(c.L, c.leaf) && ValidLeaf(c.L, newLeaf)
  {
    Start(c.B, Meet(c.L, c.leaf, newLeaf) + 1)
  }

  lemma ReachBounds(c: Context, newLeaf: nat)
    requires c.Valid() && ValidLeaf(c.L, newLeaf)
    ensures c.B == Start(c.B, 1) <= Reach(c, newLeaf) <= Start(c.B, c.L)
    ensures Reach(c, newLeaf) == Start(c.B, c.Remap(newLeaf).Depth(c.requested) + 1)
  {
    MeetBounds(c.L, c.leaf, newLeaf);
    StartMonotone(c.B, 1, Meet(c.L, c.leaf, newLeaf) + 1);
    StartMonotone(c.B, Meet(c.L, c.leaf, newLeaf) + 1, c.L);
  }

  /** Lines 474-489: the deepest free slot below `hi` takes the block of slot `p`, else the stash
      does. A block that was just cleared would go to the stash as id 0 with its data. */
  function Relocate(st: Store, p: nat, hi: nat, data: Data): (r: Store)
    requires p < |st.branch| && hi <= |st.branch|
    ensures |r.branch| == |st.branch|
  {
    var j := FindFreeDown(st.branch, hi);
    if j > 0 then st.(branch := st.branch[p := st.branch[j - 1]][j - 1 := st.branch[p]])
    else match st.branch[p]
      case Full(id, d) => Store(st.branch[p := Free], st.stash[id := d])
      case Free => Store(st.branch, st.stash[0 := data])
  }

  lemma RelocateCases(st: Store, p: nat, hi: nat, data: Data, j: nat)
    requires p < |st.branch| && hi <= |st.branch| && j == FindFreeDown(st.branch, hi)
    ensures j > 0 ==> j <= |st.branch| &&
                      Relocate(st, p, hi, data) ==
                          st.(branch := st.branch[p := st.branch[j - 1]][j - 1 := st.branch[p]])
    ensures j == 0 ==> (Relocate(st, p, hi, data) ==
                        Store(st.branch[p := Free],
                              if st.branch[p].Full? then st.stash[st.branch[p].id := st.branch[p].data]
                                  else st.stash[0 := data]))
  {
    assert st.branch[p].Free? ==> st.branch[p := Free] == st.branch;
  }

  /** An occupied slot is relocated with its own data. */
  lemma RelocateIs(st: Store, p: nat, hi: nat, data: Data, data': Data)
    requires p < |st.branch| && hi <= |st.branch| && (st.branch[p].Free? ==> data == data')
    ensures Relocate(st, p, hi, data) == Relocate(st, p, hi, data')
  {
  }

  /** Lines 460-490 */
  function Replace(c: Context, st: Store, p: nat, op: Operation, value: Data, newLeaf: nat): (r: Store)
    requires p < |st.branch| && st.branch[p].Full?
    requires ValidLeaf(c.L, c.leaf) && ValidLeaf(c.L, newLeaf) && Reach(c, newLeaf) <= |st.branch|
    ensures |r.branch| == |st.branch|
  {
    Relocate(st.(branch := Apply(st, p, op, value)), p, Reach(c, newLeaf), st.branch[p].data)
  }

  lemma ReplaceIs(c: Context, st: Store, p: nat, op: Operation, value: Data, newLeaf: nat, data: Data)
    requires p < |st.branch| && st.branch[p].Full?
    requires ValidLeaf(c.L, c.leaf) && ValidLeaf(c.L, newLeaf) && Reach(c, newLeaf) <= |st.branch|
    requires op.Clear? ==> data == st.branch[p].data
    ensures Replace(c, st, p, op, value, newLeaf) ==
            Relocate(st.(branch := Apply(st, p, op, value)), p, Reach(c, newLeaf), data)
  {
    RelocateIs(st.(branch := Apply(st, p, op, value)), p, Reach(c, newLeaf), data, st.branch[p].data);
  }

  /** The pairs held after the operation: a read changes nothing, a write replaces or adds the
      requested pair, a clear removes it. */
  ghost predicate Updated(op: Operation, requested: nat, value: Data, a: Store, b: Store) {
    forall id, data :: Holds(b, id, data) <==>
      match op
      case Read => Holds(a, id, data)
      case Write => if id == requested then data == value else Holds(a, id, data)
      case Clear => id != requested && Holds(a, id, data)
  }

  lemma HeldOnce(st: Store, id: nat, d1: Data, d2: Data)
    requires Unique(st) && Holds(st, id, d1) && Holds(st, id, d2)
    ensures d1 == d2
  {
  }

  lemma ApplyUpdates(st: Store, p: nat, op: Operation, value: Data)
    requires p < |st.branch| && st.branch[p].Full? && Unique(st)
    ensures Unique(st.(branch := Apply(st, p, op, value)))
    ensures Updated(op, st.branch[p].id, value, st, st.(branch := Apply(st, p, op, value)))
  {
    var requested := st.branch[p].id;
    var st' := st.(branch := Apply(st, p, op, value));
    assert forall t :: 0 <= t < |st.branch| && t != p ==> st'.branch[t] == st.branch[t];
    forall id, data | id != requested
      ensures Holds(st', id, data) <==> Holds(st, id, data)
    {
      if InBranch(st.branch, id, data) {
        var t :| 0 <= t < |st.branch| && st.branch[t] == Full(id, data);
        assert st'.branch[t] == Full(id, data);
      }
    }
    if op.Write? {
      assert st'.branch[p] == Full(requested, value);
    }
  }

  /** Re-placement guarantee: only a block found in the very first slot can end up in the stash,
      and then exactly when every other slot within reach is full; a clear always finds a slot. */
  lemma ReplaceInStash(c: Context, st: Store, p: nat, op: Operation, value: Data, newLeaf: nat)
    requires c.Valid() && ValidLeaf(c.L, newLeaf)
    requires p < |st.branch| == Start(c.B, c.L) && st.branch[p].Full? && Roomy(c, st.branch, p)
    ensures Reach(c, newLeaf) <= |st.branch|
    ensures FindFreeDown(Apply(st, p, op, value), Reach(c, newLeaf)) == 0 <==>
            op != Clear && p == 0 && forall t :: 1 <= t < Reach(c, newLeaf) ==> st.branch[t].Full?
  {
    ReachBounds(c, newLeaf);
    var br := Apply(st, p, op, value);
    if p > 0 {
      assert HasFree(c.B, st.branch, 0);
      var t :| 0 <= t < |st.branch| && InBucket(c.B, 0, t) && st.branch[t].Free?;
      assert br[t].Free?;
    } else if op.Clear? {
      assert br[0].Free?;
    } else {
      assert forall t :: 1 <= t < |br| ==> br[t] == st.branch[t];
    }
  }

  lemma ReplaceFitting(c: Context, st: Store, p: nat, op: Operation, value: Data, newLeaf: nat)
    requires c.Valid() && ValidLeaf(c.L, newLeaf) && Fitting(c, st) && Unique(st)
    requires p < |st.branch| && st.branch[p].Full? && st.branch[p].id == c.requested && Roomy(c, st.branch, p)
    ensures Reach(c, newLeaf) <= |st.branch|
    ensures Fitting(c.Remap(newLeaf), Replace(c, st, p, op, value, newLeaf))
  {
    ReachBounds(c, newLeaf);
    ReplaceInStash(c, st, p, op, value, newLeaf);
    var c', st' := c.Remap(newLeaf), Replace(c, st, p, op, value, newLeaf);
    forall s | 0 <= s < |st'.branch| && st'.branch[s].Full?
      ensures FitsAt(c', st'.branch[s].id, s)
    {
      ReplaceSlot(c, st, p, op, value, newLeaf, s);
      if st'.branch[s].id != c.requested {
        RemapFits(c, newLeaf, st'.branch[s].id, s);
      }
    }
  }

  /** Remapping the requested block does not concern the others. */
  lemma RemapFits(c: Context, newLeaf: nat, id: nat, s: nat)
    requires id != c.requested && FitsAt(c, id, s)
    ensures FitsAt(c.Remap(newLeaf), id, s)
  {
    assert c.Remap(newLeaf).Depth(id) == c.Depth(id);
  }

  /** After the replacement a slot holds what it held before, or the requested block within
      reach. */
  lemma ReplaceSlot(c: Context, st: Store, p: nat, op: Operation, value: Data, newLeaf: nat, s: nat)
    requires UniqueIn(st.branch) && s < |st.branch|
    requires p < |st.branch| && st.branch[p].Full? && st.branch[p].id == c.requested
    requires ValidLeaf(c.L, c.leaf) && ValidLeaf(c.L, newLeaf) && Reach(c, newLeaf) <= |st.branch|
    ensures var slot := Replace(c, st, p, op, value, newLeaf).branch[s];
            slot.Full? ==> (slot.id == c.requested && s < Reach(c, newLeaf)) ||
                           (slot.id != c.requested && slot == st.branch[s])
  {
  }

  lemma ReplaceUpdates(c: Context, st: Store, p: nat, op: Operation, value: Data, newLeaf: nat)
    requires c.Valid() && ValidLeaf(c.L, newLeaf) && Unique(st) && |st.branch| == Start(c.B, c.L)
    requires p < |st.branch| && st.branch[p].Full? && st.branch[p].id == c.requested && Roomy(c, st.branch, p)
    ensures Reach(c, newLeaf) <= |st.branch|
    ensures Unique(Replace(c, st, p, op, value, newLeaf))
    ensures Updated(op, c.requested, value, st, Replace(c, st, p, op, value, newLeaf))
  {
    ReplaceInStash(c, st, p, op, value, newLeaf);
    ApplyUpdates(st, p, op, value);
    var st1 := st.(branch := Apply(st, p, op, value));
    var j := FindFreeDown(st1.branch, Reach(c, newLeaf));
    if op.Clear? {
      assert Replace(c, st, p, op, value, newLeaf) == st1 by {
        assert st1.branch[p := st1.branch[j - 1]][j - 1 := st1.branch[p]] == st1.branch;
      }
    } else if j > 0 {
      MoveKeepsContents(st1, p, j - 1);
      MoveKeepsUnique(st1, p, j - 1);
    } else {
      EvictKeepsContents(st1, p);
    }
  }

  lemma MoveKeepsUnique(st: Store, s: nat, j: nat)
    requires Unique(st) && s < |st.branch| && j < |st.branch| && st.branch[s].Full? && st.branch[j].Free?
    ensures Unique(st.(branch := st.branch[s := Free][j := st.branch[s]]))
  {
  }
}
