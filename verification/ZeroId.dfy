/** A traversal for id 0, the mark of a free slot, which a new key gets when it is the only id left
    (src/single_client.cpp:195-203): what is held under it is in the stash or nowhere. */
module ZeroId {
  import opened Wrappers
  import opened Bytes
  import opened Paths
  import opened Slots
  import opened BranchLoop
  import opened Replacement
  import opened StashScan
  import opened Traversal

  ghost function Held(stash: map<nat, Data>): Option<Data> {
    if 0 in stash then Some(stash[0]) else None
  }

  lemma HeldIs(st: Store)
    requires forall s :: 0 <= s < |st.branch| && st.branch[s].Full? ==> st.branch[s].id != 0
    ensures forall d :: Holds(st, 0, d) <==> Held(st.stash) == Some(d)
    ensures Contains(st, 0) <==> 0 in st.stash
  {
    if 0 in st.stash {
      assert Holds(st, 0, st.stash[0]);
    }
  }

  /** The branch loop passes everything, and what is held stays. */
  lemma ZeroMissing(c: Context, st: Store)
    requires Ready(c, st) && c.requested == 0
    ensures Walk(c, st, 0).Missing? && Held(Walk(c, st, 0).st.stash) == Held(st.stash)
    ensures Contains(st, 0) <==> 0 in st.stash
  {
    WalkFromStart(c, st);
    var w := Walk(c, st, 0).st;
    HeldIs(st);
    HeldIs(w);
    assert forall d :: Holds(st, 0, d) <==> Holds(w, 0, d);
    if 0 in st.stash {
      assert Holds(w, 0, st.stash[0]);
    }
    if 0 in w.stash {
      assert Holds(st, 0, w.stash[0]);
    }
  }

  /** A clear reads its null buffer if and only if nothing is held. */
  lemma ClearReadsNullIff(c: Context, st: Store, order: seq<nat>)
    requires Ready(c, st) && c.requested == 0 && ScanOrder(c, st, order)
    ensures ReadsNull(c, st, Operation.Clear, order) <==> 0 !in st.stash
  {
    ZeroMissing(c, st);
    ClearOfHeld(c, st, Operation.Clear, order);
  }

  /** No slot within reach of the new leaf is free: the last step of the access goes to the stash. */
  ghost predicate NoneFree(c: Context, br: seq<Slot>, newLeaf: nat) {
    ValidLeaf(c.L, c.leaf) && ValidLeaf(c.L, newLeaf) &&
    forall t :: 0 <= t < Reach(c, newLeaf) && t < |br| ==> br[t].Full?
  }

  /** The last step for id 0: a free slot stays free, and nothing is stored. */
  lemma PlaceZero(c: Context, st: Store, data: Data, newLeaf: nat)
    requires c.requested == 0 && ValidLeaf(c.L, c.leaf) && ValidLeaf(c.L, newLeaf) && Reach(c, newLeaf) <= |st.branch|
    ensures Place(c, st, data, newLeaf) ==
            if NoneFree(c, st.branch, newLeaf) then st.(stash := st.stash[0 := data]) else st
  {
    var j := FindFreeDown(st.branch, Reach(c, newLeaf));
    if j > 0 {
      assert st.branch[j - 1 := Free] == st.branch;
      assert st.branch[j - 1].Free?;
    }
  }

  /** What the access writes or hands back */
  ghost function ZeroValue(op: Operation, buffer: Option<Data>, held: Option<Data>): Data {
    if op.Write? then buffer.GetOr([]) else held.GetOr(buffer.GetOr([]))
  }

  /** All that a traversal for id 0 does: the branch and the stash without id 0 are those that the scan
      leaves; a clear forgets what is held; a put holds its value, and a get what it hands back, if and
      only if no slot within reach is free. */
  lemma ZeroTraverse(c: Context, st: Store, op: Operation, buffer: Option<Data>, newLeaf: nat, order: seq<nat>)
    requires Ready(c, st) && ScanOrder(c, st, order) && ValidLeaf(c.L, newLeaf) && c.requested == 0
    requires (op.Clear? <==> buffer.None?) && !ReadsNull(c, st, op, order)
    ensures Walk(c, st, 0).Missing?
    ensures var rest, r := Cleared(c, Walk(c, st, 0).st, order), Traverse(c, st, op, buffer, newLeaf, order);
            var value := ZeroValue(op, buffer, Held(st.stash));
            && 0 !in rest.stash && r.st.branch == rest.branch
            && r.st.stash ==
               (if !op.Clear? && NoneFree(c, rest.branch, newLeaf) then rest.stash[0 := value] else rest.stash)
            && r.positions == (if op.Clear? then c.positions else c.positions[0 := newLeaf])
            && (op.Read? ==> r.buffer == Some(value))
  {
    ZeroMissing(c, st);
    TailReachedIff(c, st, order);
    var w := Walk(c, st, 0).st;
    ReadySize(c, st);
    TraverseMissing(c, st, w, op, buffer, newLeaf, order);
    hide Ready, Scan, Walk, Fitting, ScanOrder, Context.Valid, Unique, Separate, Place, Traverse, Reach, NoneFree;
    var rest := Cleared(c, w, order);
    if !op.Clear? {
      PlaceZero(c, rest, ZeroValue(op, buffer, Held(st.stash)), newLeaf);
    }
  }

  // ----- Accesses to other blocks, when something is held -----

  /** The store with or without a value under id 0 */
  ghost function WithZero(st: Store, held: Option<Data>): Store {
    if held.Some? then st.(stash := st.stash[0 := held.value]) else st
  }

  /** The branch loop does not see the stash entry with id 0. */
  lemma {:induction false} WalkWithZero(c: Context, st: Store, held: Option<Data>, n: nat)
    requires c.Valid() && Fitting(c, st) && n <= |st.branch|
    ensures Walk(c, WithZero(st, held), n) ==
            match Walk(c, st, n)
            case Found(w, at) => Found(WithZero(w, held), at)
            case Missing(w) => Missing(WithZero(w, held))
    decreases |st.branch| - n
  {
    if n < |st.branch| && !(st.branch[n].Full? && st.branch[n].id == c.requested) {
      VisitFitting(c, st, n);
      VisitWithZero(c, st, held, n);
      WalkWithZero(c, Visit(c, st, n), held, n + 1);
    }
  }

  lemma VisitWithZero(c: Context, st: Store, held: Option<Data>, n: nat)
    requires Fitting(c, st) && n < |st.branch|
    ensures Visit(c, WithZero(st, held), n) == WithZero(Visit(c, st, n), held)
  {
    if held.Some? && st.branch[n].Full? {
      var id, data := st.branch[n].id, st.branch[n].data;
      assert st.stash[0 := held.value][id := data] == st.stash[id := data][0 := held.value];
    }
  }

  /** With a value held under id 0, the scan of a later access to another block ends if and only if it
      does not look at that entry, or an entry before it has the same deepest common bucket: the branch
      loop has left a free slot there, and a block with id 0 never fills it. */
  lemma LaterScanEndsIff(c: Context, st: Store, value: Data, order: seq<nat>)
    requires Ready(c, st) && c.requested != 0 && Walk(c, st, 0).Missing?
    requires Enumerates(order, Walk(c, WithZero(st, Some(value)), 0).st.stash.Keys)
    ensures var w := Walk(c, WithZero(st, Some(value)), 0).st;
            Ends(c, Scanned(w.branch, {}, 0), w.stash, order) <==>
            forall i: nat :: i < |order| && Ahead(c, order, i) && order[i] == 0 ==> TakenBefore(c, order, 0, i)
  {
    WalkFromStart(c, st);
    WalkWithZero(c, st, Some(value), 0);
    var w := Walk(c, WithZero(st, Some(value)), 0).st;
    var s := Scanned(w.branch, {}, 0);
    EndsIff(c, s, w.stash, order);
    DepthBounds(c, 0);
    StartMonotone(c.B, c.Depth(0), c.L);
    assert !BucketFull(c, w.branch, 0);
  }
}
