/** What `traverse_branch` computes as a whole (src/single_client.cpp:454-585). The methods of
    SingleClient are proved against these functions. */
module Traversal {
  import opened Paths
  import opened Wrappers
  import opened Bytes
  import opened Slots
  import opened BranchLoop
  import opened Replacement
  import opened StashScan

  // ----- The last step of every branch of the code, lines 537-547 and 571-584 -----

  /** The last free slot below `hi` takes the block, else the stash does. */
  function PlaceBelow(st: Store, id: nat, data: Data, hi: nat): (r: Store)
    requires hi <= |st.branch|
    ensures |r.branch| == |st.branch|
  {
    var j := FindFreeDown(st.branch, hi);
    if j > 0 then st.(branch := st.branch[j - 1 := MakeSlot(id, data)])
    else st.(stash := st.stash[id := data])
  }

  /** The deepest free slot within reach takes the requested block, else the stash does. */
  function Place(c: Context, st: Store, data: Data, newLeaf: nat): (r: Store)
    requires ValidLeaf(c.L, c.leaf) && ValidLeaf(c.L, newLeaf) && Reach(c, newLeaf) <= |st.branch|
    ensures |r.branch| == |st.branch|
  {
    PlaceBelow(st, c.requested, data, Reach(c, newLeaf))
  }

  lemma PlaceCases(c: Context, st: Store, data: Data, newLeaf: nat, j: nat)
    requires ValidLeaf(c.L, c.leaf) && ValidLeaf(c.L, newLeaf) && Reach(c, newLeaf) <= |st.branch|
    requires j == FindFreeDown(st.branch, Reach(c, newLeaf))
    ensures j > 0 ==> j <= |st.branch| &&
                      Place(c, st, data, newLeaf) == st.(branch := st.branch[j - 1 := MakeSlot(c.requested, data)])
    ensures j == 0 ==> Place(c, st, data, newLeaf) == st.(stash := st.stash[c.requested := data])
  {
  }

  lemma PlaceFitting(c: Context, st: Store, data: Data, newLeaf: nat)
    requires c.Valid() && ValidLeaf(c.L, newLeaf) && Fitting(c, st) && c.requested != 0
    requires forall s :: 0 <= s < |st.branch| && st.branch[s].Full? ==> st.branch[s].id != c.requested
    ensures Reach(c, newLeaf) <= |st.branch|
    ensures Fitting(c.Remap(newLeaf), Place(c, st, data, newLeaf))
  {
    ReachBounds(c, newLeaf);
    var c', st' := c.Remap(newLeaf), Place(c, st, data, newLeaf);
    forall s | 0 <= s < |st'.branch| && st'.branch[s].Full?
      ensures FitsAt(c', st'.branch[s].id, s)
    {
      if st'.branch[s].id != c.requested {
        RemapFits(c, newLeaf, st'.branch[s].id, s);
      }
    }
  }

  lemma PlaceAdds(c: Context, st: Store, data: Data, newLeaf: nat)
    requires c.Valid() && ValidLeaf(c.L, newLeaf) && |st.branch| == Start(c.B, c.L)
    requires c.requested != 0 && !Contains(st, c.requested)
    ensures Reach(c, newLeaf) <= |st.branch|
    ensures Unique(st) <==> Unique(Place(c, st, data, newLeaf))
    ensures Separate(st) ==> Separate(Place(c, st, data, newLeaf))
    ensures forall id, d :: Holds(Place(c, st, data, newLeaf), id, d) <==>
                            Holds(st, id, d) || (id == c.requested && d == data)
  {
    hide Unique, Separate, Contains, Holds, Place;
    ReachBounds(c, newLeaf);
    var j := FindFreeDown(st.branch, Reach(c, newLeaf));
    PlaceCases(c, st, data, newLeaf, j);
    var st' := if j > 0 then st.(branch := st.branch[j - 1 := Full(c.requested, data)])
               else st.(stash := st.stash[c.requested := data]);
    if j > 0 {
      InsertInBranch(st, j - 1, c.requested, data);
    } else {
      InsertInStash(st, c.requested, data);
    }
    assert Place(c, st, data, newLeaf) == st';
    forall id, d
      ensures Holds(Place(c, st, data, newLeaf), id, d) <==> Holds(st, id, d) || (id == c.requested && d == data)
    {
      assert Holds(st', id, d) <==> Holds(st, id, d) || (id == c.requested && d == data);
    }
  }

  // ----- The whole of traverse_branch -----

  /** The branch, stash and position map on return, and the caller's value buffer. */
  datatype Result = Result(st: Store, positions: map<nat, nat>, buffer: Option<Data>)

  /** The facts that the main invariant supplies on entry. */
  ghost predicate Ready(c: Context, st: Store) {
    c.Valid() && Fitting(c, st) && Unique(st)
  }

  lemma ReadySize(c: Context, st: Store)
    requires Ready(c, st)
    ensures c.Valid() && |st.branch| == Start(c.B, c.L)
  {
  }

  /** `order` is the order in which the stash is enumerated when the scan starts; a block with id 0 is
      not there, unless it is requested. */
  ghost predicate ScanOrder(c: Context, st: Store, order: seq<nat>) {
    var w := Walk(c, st, 0);
    w.Missing? ==> Enumerates(order, w.st.stash.Keys) && NoZero(c, order)
  }

  lemma WalkFromStart(c: Context, st: Store)
    requires Ready(c, st)
    ensures var w := Walk(c, st, 0); Walked(c, st, w.st, if w.Found? then w.at else |w.st.branch|)
  {
    WalkKeeps(c, st, st, 0);
  }

  /** The scan of the stash that the branch loop left behind. */
  ghost function ScanAll(c: Context, w: Store, order: seq<nat>): Scanned
    requires Enumerates(order, w.stash.Keys) && NoZero(c, order)
  {
    Scan(c, Scanned(w.branch, {}, 0), w.stash, order)
  }

  /** A clear that reaches lines 571-584 reads its null buffer. */
  ghost predicate ReadsNull(c: Context, st: Store, op: Operation, order: seq<nat>)
    requires ScanOrder(c, st, order)
  {
    var w := Walk(c, st, 0);
    op.Clear? && w.Missing? && ScanAll(c, w.st, order).at == |order|
  }

  ghost function Traverse(c: Context, st: Store, op: Operation, buffer: Option<Data>, newLeaf: nat,
      order: seq<nat>): Result
    requires c.Valid() && |st.branch| == Start(c.B, c.L) && ScanOrder(c, st, order) && ValidLeaf(c.L, newLeaf)
    requires (op.Clear? <==> buffer.None?) && !ReadsNull(c, st, op, order)
  {
    ReachBounds(c, newLeaf);
    var positions := c.positions[c.requested := newLeaf];
    match Walk(c, st, 0)
    case Found(w, at) =>
      Result(Replace(c, w, at, op, buffer.GetOr([]), newLeaf), positions,
             if op.Read? then Some(w.branch[at].data) else buffer)
    case Missing(w) =>
      var s := ScanAll(c, w, order);
      var rest := Store(s.branch, w.stash - s.placed - {c.requested});
      if s.at < |order| && op.Clear? then
        Result(rest, c.positions, buffer)
      else if s.at < |order| then
        var data := if op.Write? then buffer.value else w.stash[c.requested];
        Result(Place(c, rest, data, newLeaf), positions, Some(data))
      else
        Result(Place(c, rest, buffer.value, newLeaf), positions, buffer)
  }

  lemma TraverseFound(c: Context, st: Store, w: Store, at: nat, op: Operation, buffer: Option<Data>, newLeaf: nat)
    requires c.Valid() && |st.branch| == Start(c.B, c.L) && ValidLeaf(c.L, newLeaf) && Walk(c, st, 0) == Found(w, at)
    requires op.Clear? <==> buffer.None?
    ensures ScanOrder(c, st, []) && !ReadsNull(c, st, op, []) && Reach(c, newLeaf) <= |w.branch|
    ensures Traverse(c, st, op, buffer, newLeaf, []) ==
            Result(Replace(c, w, at, op, buffer.GetOr([]), newLeaf), c.positions[c.requested := newLeaf],
                   if op.Read? then Some(w.branch[at].data) else buffer)
  {
    ReachBounds(c, newLeaf);
  }

  lemma TraverseMissing(c: Context, st: Store, w: Store, op: Operation, buffer: Option<Data>, newLeaf: nat,
      order: seq<nat>)
    requires c.Valid() && |st.branch| == Start(c.B, c.L) && ValidLeaf(c.L, newLeaf) && Walk(c, st, 0) == Missing(w)
    requires ScanOrder(c, st, order) && (op.Clear? <==> buffer.None?) && !ReadsNull(c, st, op, order)
    ensures Enumerates(order, w.stash.Keys) && NoZero(c, order)
    ensures var s := ScanAll(c, w, order);
            var rest := Store(s.branch, w.stash - s.placed - {c.requested});
            && Reach(c, newLeaf) <= |rest.branch| && ValidLeaf(c.L, c.leaf)
            && (s.at < |order| ==> c.requested in w.stash)
            && Traverse(c, st, op, buffer, newLeaf, order) ==
               if s.at < |order| && op.Clear? then Result(rest, c.positions, buffer)
               else if s.at < |order| then
                 var data := if op.Write? then buffer.value else w.stash[c.requested];
                 Result(Place(c, rest, data, newLeaf), c.positions[c.requested := newLeaf], Some(data))
               else Result(Place(c, rest, buffer.value, newLeaf), c.positions[c.requested := newLeaf], buffer)
  {
    ReachBounds(c, newLeaf);
  }

  /** No stash entry that the scan looks at has two free slots in its deepest common bucket when the
      branch loop is done, or there is no scan because the requested block is on the branch. */
  ghost predicate ScansOnce(c: Context, st: Store, order: seq<nat>) {
    var w := Walk(c, st, 0);
    w.Missing? ==> PlacesOnce(c, w.st.branch, order)
  }

  lemma ScanFromStart(c: Context, st: Store, order: seq<nat>)
    requires Ready(c, st) && ScanOrder(c, st, order) && Walk(c, st, 0).Missing?
    ensures var w := Walk(c, st, 0).st; Fitting(c, w) && Scanning(c, w, ScanAll(c, w, order), order)
    ensures var w := Walk(c, st, 0).st; Unique(Rest(ScanAll(c, w, order), w.stash)) <==> ScansOnce(c, st, order)
  {
    WalkFromStart(c, st);
    var w := Walk(c, st, 0).st;
    NoZeroAhead(c, w, order);
    var s := Scanned(w.branch, {}, 0);
    assert Rest(s, w.stash) == w;
    ScanKeeps(c, w, s, order);
    ScanUniqueIff(c, w, order);
  }

  lemma NoZeroAhead(c: Context, w: Store, order: seq<nat>)
    requires Fitting(c, w) && Enumerates(order, w.stash.Keys)
    ensures NoZero(c, order) && Known(c, w)
  {
  }

  /** Lines 571-584 run exactly when neither the branch nor the stash holds the requested block. */
  lemma TailReachedIff(c: Context, st: Store, order: seq<nat>)
    requires Ready(c, st) && ScanOrder(c, st, order) && Walk(c, st, 0).Missing?
    ensures Fitting(c, Walk(c, st, 0).st)
    ensures ScanAll(c, Walk(c, st, 0).st, order).at == |order| <==> !Contains(st, c.requested)
  {
    ScanFromStart(c, st, order);
    WalkFromStart(c, st);
    var w := Walk(c, st, 0).st;
    var s := ScanAll(c, w, order);
    assert !exists data :: InBranch(w.branch, c.requested, data);
    if s.at == |order| {
      assert c.requested !in order;
      forall data
        ensures !Holds(st, c.requested, data)
      {
        assert Holds(st, c.requested, data) <==> Holds(w, c.requested, data);
      }
    } else {
      assert Holds(w, c.requested, w.stash[c.requested]);
      assert Holds(st, c.requested, w.stash[c.requested]);
    }
  }

  /** So a clear of a block that is there never reads its null buffer. */
  lemma ClearOfHeld(c: Context, st: Store, op: Operation, order: seq<nat>)
    requires Ready(c, st) && ScanOrder(c, st, order)
    ensures ReadsNull(c, st, op, order) <==> op.Clear? && !Contains(st, c.requested)
  {
    if Walk(c, st, 0).Missing? {
      TailReachedIff(c, st, order);
    } else {
      FoundIsHeld(c, st);
    }
  }

  lemma FoundIsHeld(c: Context, st: Store)
    requires Ready(c, st) && Walk(c, st, 0).Found?
    ensures Contains(st, c.requested)
  {
    WalkFromStart(c, st);
    var w := Walk(c, st, 0);
    assert InBranch(w.st.branch, c.requested, w.st.branch[w.at].data);
    assert Holds(w.st, c.requested, w.st.branch[w.at].data);
  }

  /** What one traversal achieves: afterwards every block is again in the stash or in a bucket on
      the path to its leaf, the contents are those of before except for the requested operation, a
      read returns the stored data, and no block is both on the branch and in the stash. */
  ghost predicate Achieves(c: Context, st: Store, op: Operation, buffer: Option<Data>, r: Result) {
    && Fitting(c.(positions := r.positions), r.st)
    && Updated(op, c.requested, buffer.GetOr([]), st, r.st)
    && (op.Read? ==> r.buffer.Some? && Holds(st, c.requested, r.buffer.value))
    && Separate(r.st)
  }

  lemma TraverseCorrect(c: Context, st: Store, op: Operation, buffer: Option<Data>, newLeaf: nat, order: seq<nat>)
    requires Ready(c, st) && ScanOrder(c, st, order) && ValidLeaf(c.L, newLeaf)
    requires (op.Clear? <==> buffer.None?) && !ReadsNull(c, st, op, order)
    requires op.Write? || Contains(st, c.requested)
    requires c.requested != 0
    ensures Achieves(c, st, op, buffer, Traverse(c, st, op, buffer, newLeaf, order))
    ensures Unique(Traverse(c, st, op, buffer, newLeaf, order).st) <==> ScansOnce(c, st, order)
  {
    WalkFromStart(c, st);
    var w := Walk(c, st, 0);
    if w.Found? {
      FoundCorrect(c, st, op, buffer, newLeaf, order);
    } else if ScanAll(c, w.st, order).at < |order| {
      StashedCorrect(c, st, op, buffer, newLeaf, order);
    } else {
      NewCorrect(c, st, op, buffer, newLeaf, order);
    }
  }

  lemma UpdatedTransfers(op: Operation, requested: nat, value: Data, a: Store, b: Store, r: Store)
    requires SameContents(a, b) && Updated(op, requested, value, b, r)
    ensures Updated(op, requested, value, a, r)
  {
  }

  lemma FoundCorrect(c: Context, st: Store, op: Operation, buffer: Option<Data>, newLeaf: nat, order: seq<nat>)
    requires Ready(c, st) && ScanOrder(c, st, order) && ValidLeaf(c.L, newLeaf)
    requires (op.Clear? <==> buffer.None?) && !ReadsNull(c, st, op, order)
    requires op.Clear? ==> Contains(st, c.requested)
    requires Walk(c, st, 0).Found?
    ensures Achieves(c, st, op, buffer, Traverse(c, st, op, buffer, newLeaf, order))
    ensures Unique(Traverse(c, st, op, buffer, newLeaf, order).st) <==> ScansOnce(c, st, order)
  {
    WalkFromStart(c, st);
    ReachBounds(c, newLeaf);
    var w := Walk(c, st, 0);
    var value := buffer.GetOr([]);
    ReplaceFitting(c, w.st, w.at, op, value, newLeaf);
    ReplaceUpdates(c, w.st, w.at, op, value, newLeaf);
    UpdatedTransfers(op, c.requested, value, st, w.st, Replace(c, w.st, w.at, op, value, newLeaf));
    assert InBranch(w.st.branch, c.requested, w.st.branch[w.at].data);
    assert Holds(w.st, c.requested, w.st.branch[w.at].data);
  }

  /** The store without the requested block, just before the last step. */
  ghost function Cleared(c: Context, w: Store, order: seq<nat>): Store
    requires Enumerates(order, w.stash.Keys) && NoZero(c, order)
  {
    var s := ScanAll(c, w, order);
    Store(s.branch, w.stash - s.placed - {c.requested})
  }

  lemma ClearedStore(c: Context, st: Store, order: seq<nat>)
    requires Ready(c, st) && ScanOrder(c, st, order) && Walk(c, st, 0).Missing?
    ensures var w := Walk(c, st, 0).st;
            && Fitting(c, w)
            && var rest := Cleared(c, w, order);
            && Fitting(c, rest) && !Contains(rest, c.requested)
            && (forall s :: 0 <= s < |rest.branch| && rest.branch[s].Full? ==> rest.branch[s].id != c.requested)
            && Separate(rest) && (Unique(rest) <==> ScansOnce(c, st, order))
            && Updated(Clear, c.requested, [], st, rest)
  {
    ScanFromStart(c, st, order);
    WalkFromStart(c, st);
    var w := Walk(c, st, 0).st;
    var s := ScanAll(c, w, order);
    EraseFromStash(Rest(s, w.stash), c.requested);
    var rest := Cleared(c, w, order);
    assert rest == Rest(s, w.stash).(stash := Rest(s, w.stash).stash - {c.requested});
    forall id, data
      ensures Holds(rest, id, data) <==> id != c.requested && Holds(st, id, data)
    {
      assert Holds(st, id, data) <==> Holds(w, id, data);
      assert Holds(w, id, data) <==> Holds(Rest(s, w.stash), id, data);
    }
  }

  lemma StashedCorrect(c: Context, st: Store, op: Operation, buffer: Option<Data>, newLeaf: nat, order: seq<nat>)
    requires Ready(c, st) && ScanOrder(c, st, order) && ValidLeaf(c.L, newLeaf)
    requires (op.Clear? <==> buffer.None?) && !ReadsNull(c, st, op, order)
    requires op.Clear? ==> Contains(st, c.requested)
    requires Walk(c, st, 0).Missing? && c.requested != 0
    requires Fitting(c, Walk(c, st, 0).st) && ScanAll(c, Walk(c, st, 0).st, order).at < |order|
    ensures Achieves(c, st, op, buffer, Traverse(c, st, op, buffer, newLeaf, order))
    ensures Unique(Traverse(c, st, op, buffer, newLeaf, order).st) <==> ScansOnce(c, st, order)
  {
    WalkFromStart(c, st);
    ClearedStore(c, st, order);
    ReachBounds(c, newLeaf);
    var w := Walk(c, st, 0).st;
    var rest := Cleared(c, w, order);
    var prior := w.stash[c.requested];
    assert Holds(w, c.requested, prior);
    assert Holds(st, c.requested, prior);
    if !op.Clear? {
      var data := if op.Write? then buffer.value else prior;
      PlaceFitting(c, rest, data, newLeaf);
      PlaceAdds(c, rest, data, newLeaf);
      OnlyCopy(st, c.requested, prior);
    }
  }

  lemma OnlyCopy(st: Store, id: nat, data: Data)
    requires Unique(st) && Holds(st, id, data)
    ensures forall d :: Holds(st, id, d) ==> d == data
  {
    forall d | Holds(st, id, d)
      ensures d == data
    {
      HeldOnce(st, id, d, data);
    }
  }

  lemma NewCorrect(c: Context, st: Store, op: Operation, buffer: Option<Data>, newLeaf: nat, order: seq<nat>)
    requires Ready(c, st) && ScanOrder(c, st, order) && ValidLeaf(c.L, newLeaf)
    requires (op.Clear? <==> buffer.None?) && !ReadsNull(c, st, op, order)
    requires op.Write? || Contains(st, c.requested)
    requires Walk(c, st, 0).Missing? && c.requested != 0
    requires Fitting(c, Walk(c, st, 0).st) && ScanAll(c, Walk(c, st, 0).st, order).at == |order|
    ensures Achieves(c, st, op, buffer, Traverse(c, st, op, buffer, newLeaf, order))
    ensures Unique(Traverse(c, st, op, buffer, newLeaf, order).st) <==> ScansOnce(c, st, order)
  {
    TailReachedIff(c, st, order);
    ClearedStore(c, st, order);
    ReachBounds(c, newLeaf);
    var w := Walk(c, st, 0).st;
    var rest := Cleared(c, w, order);
    PlaceFitting(c, rest, buffer.value, newLeaf);
    PlaceAdds(c, rest, buffer.value, newLeaf);
  }
}
