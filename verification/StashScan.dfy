/** The scan of the stash (src/single_client.cpp:515-569), `goto RESTART` included. */
module StashScan {
  import opened Bytes
  import opened Slots
  import opened BranchLoop

  /** Where the scan stands: the branch, the ids to erase from the stash, and the position in the
      enumeration of the stash at which it stopped. */
  datatype Scanned = Scanned(branch: seq<Slot>, placed: set<nat>, at: nat)

  /** One round at the entry `s.at`: place a copy in a free slot of the entry's deepest common
      bucket and look at the same entry again (`goto RESTART`), or advance when that is full. A block
      with id 0 leaves the slot free. */
  function ScanStep(c: Context, s: Scanned, stash: map<nat, Data>, order: seq<nat>): (r: Scanned)
    requires s.at < |order| && order[s.at] in stash
    ensures |r.branch| == |s.branch|
  {
    var id := order[s.at];
    var hi := Start(c.B, c.Depth(id) + 1);
    var j := if hi <= |s.branch| then FindFree(s.branch, Start(c.B, c.Depth(id)), hi) else hi;
    if j < hi then Scanned(s.branch[j := MakeSlot(id, stash[id])], s.placed + {id}, s.at)
    else s.(at := s.at + 1)
  }

  lemma ScanStepIs(c: Context, s: Scanned, stash: map<nat, Data>, order: seq<nat>, hi: nat, j: nat)
    requires s.at < |order| && order[s.at] in stash && order[s.at] != 0
    requires hi == Start(c.B, c.Depth(order[s.at]) + 1) <= |s.branch|
    requires j == FindFree(s.branch, Start(c.B, c.Depth(order[s.at])), hi)
    ensures j < hi ==> j < |s.branch|
    ensures var id := order[s.at];
            j < hi ==>
              ScanStep(c, s, stash, order) == Scanned(s.branch[j := MakeSlot(id, stash[id])], s.placed + {id}, s.at)
    ensures var id := order[s.at];
            j < hi ==> multiset(s.branch[j := MakeSlot(id, stash[id])])[Free] < multiset(s.branch)[Free]
    ensures j >= hi ==> ScanStep(c, s, stash, order) == s.(at := s.at + 1)
  {
  }

  /** The scan is over at the end of the stash or at the requested block. */
  predicate Stops(c: Context, s: Scanned, order: seq<nat>)
    requires s.at <= |order|
  {
    s.at == |order| || order[s.at] == c.requested
  }

  /** A block of id 0 is not there, unless it is requested. */
  predicate NoZero(c: Context, order: seq<nat>) {
    c.requested == 0 || 0 !in order
  }

  /** The scan exactly as coded. Without a block of id 0 ahead it ends, because a placement uses up a
      free slot and any other round advances. */
  function Scan(c: Context, s: Scanned, stash: map<nat, Data>, order: seq<nat>): (r: Scanned)
    requires s.at <= |order| && NoZero(c, order)
    requires forall i :: 0 <= i < |order| ==> order[i] in stash
    ensures |r.branch| == |s.branch| && s.at <= r.at <= |order|
    ensures r.at < |order| ==> order[r.at] == c.requested
    decreases |order| - s.at, multiset(s.branch)[Free]
  {
    if Stops(c, s, order) then s
    else Scan(c, ScanStep(c, s, stash, order), stash, order)
  }

  /** What the scan leaves behind once the placed ids are erased. */
  function Rest(s: Scanned, stash: map<nat, Data>): Store {
    Store(s.branch, stash - s.placed)
  }

  ghost predicate BucketFull(c: Context, br: seq<Slot>, id: nat) {
    !HasFree(c.B, br, c.Depth(id))
  }

  /** What the scan maintains for every `B`, when it started from `st0`. */
  ghost predicate Scanning(c: Context, st0: Store, s: Scanned, order: seq<nat>) {
    && s.at <= |order| && Enumerates(order, st0.stash.Keys)
    && Fitting(c, Rest(s, st0.stash)) && Separate(Rest(s, st0.stash))
    && (forall id :: id in s.placed ==> id in st0.stash && id != c.requested && InBranch(s.branch, id, st0.stash[id]))
    && Exact(c, s.branch, |s.branch|)
    && SameContents(st0, Rest(s, st0.stash))
    && (forall i :: 0 <= i < s.at ==> order[i] != c.requested && BucketFull(c, s.branch, order[i]))
  }

  /** The stash holds blocks of mapped ids. */
  ghost predicate Known(c: Context, st0: Store) {
    forall id :: id in st0.stash ==> id in c.positions && (id == 0 ==> c.requested == 0)
  }

  lemma PlaceKeepsContents(s: Scanned, stash: map<nat, Data>, id: nat, j: nat)
    requires j < |s.branch| && s.branch[j].Free? && id in stash
    requires id in s.placed ==> InBranch(s.branch, id, stash[id])
    ensures SameContents(Rest(s, stash),
            Rest(Scanned(s.branch[j := Full(id, stash[id])], s.placed + {id}, s.at), stash))
  {
    var s' := Scanned(s.branch[j := Full(id, stash[id])], s.placed + {id}, s.at);
    forall i, d
      ensures InBranch(s'.branch, i, d) <==> InBranch(s.branch, i, d) || (i == id && d == stash[id])
    {
      if InBranch(s.branch, i, d) {
        var t :| 0 <= t < |s.branch| && s.branch[t] == Full(i, d);
        assert s'.branch[t] == Full(i, d);
      }
      assert s'.branch[j] == Full(id, stash[id]);
    }
  }

  lemma PlaceKeepsFull(c: Context, br: seq<Slot>, j: nat, slot: Slot, id: nat)
    requires j < |br| && slot.Full? && BucketFull(c, br, id)
    ensures BucketFull(c, br[j := slot], id)
  {
    var br' := br[j := slot];
    forall t | 0 <= t < |br'| && InBucket(c.B, c.Depth(id), t)
      ensures br'[t].Full?
    {
      assert t != j ==> br'[t] == br[t];
    }
  }

  lemma {:induction false} ScanKeeps(c: Context, st0: Store, s: Scanned, order: seq<nat>)
    requires c.Valid() && Scanning(c, st0, s, order) && Known(c, st0) && NoZero(c, order)
    ensures Scanning(c, st0, Scan(c, s, st0.stash, order), order)
    decreases |order| - s.at, multiset(s.branch)[Free]
  {
    if !Stops(c, s, order) {
      ScanStepKeeps(c, st0, s, order);
      ScanKeeps(c, st0, ScanStep(c, s, st0.stash, order), order);
    }
  }

  lemma ScanStepKeeps(c: Context, st0: Store, s: Scanned, order: seq<nat>)
    requires c.Valid() && Scanning(c, st0, s, order) && Known(c, st0) && !Stops(c, s, order)
    ensures Scanning(c, st0, ScanStep(c, s, st0.stash, order), order)
  {
    var j := ScanStepCases(c, s, st0.stash, order);
    if j < |s.branch| {
      PlaceStep(c, st0, s, order, order[s.at], j);
    } else {
      AdvanceStep(c, st0, s, order);
    }
  }

  /** The slot a round fills, or the length of the branch when it advances. */
  lemma ScanStepCases(c: Context, s: Scanned, stash: map<nat, Data>, order: seq<nat>) returns (j: nat)
    requires c.Valid() && |s.branch| == Start(c.B, c.L) && s.at < |order| && order[s.at] in stash
    ensures var id := order[s.at];
            if j < |s.branch|
            then s.branch[j].Free? && InBucket(c.B, c.Depth(id), j) &&
                 ScanStep(c, s, stash, order) == Scanned(s.branch[j := MakeSlot(id, stash[id])], s.placed + {id}, s.at)
            else BucketFull(c, s.branch, id) && ScanStep(c, s, stash, order) == s.(at := s.at + 1)
  {
    var id := order[s.at];
    DepthBounds(c, id);
    var hi := Start(c.B, c.Depth(id) + 1);
    j := FindFree(s.branch, Start(c.B, c.Depth(id)), hi);
    if j == hi {
      j := |s.branch|;
    }
  }

  lemma AdvanceStep(c: Context, st0: Store, s: Scanned, order: seq<nat>)
    requires Scanning(c, st0, s, order) && s.at < |order| && order[s.at] != c.requested
    requires BucketFull(c, s.branch, order[s.at])
    ensures Scanning(c, st0, s.(at := s.at + 1), order)
  {
    assert Rest(s.(at := s.at + 1), st0.stash) == Rest(s, st0.stash);
  }

  lemma PlaceStep(c: Context, st0: Store, s: Scanned, order: seq<nat>, id: nat, j: nat)
    requires c.Valid() && Scanning(c, st0, s, order) && s.at < |order| && order[s.at] == id != c.requested
    requires id != 0 && id in c.positions
    requires j < |s.branch| && s.branch[j].Free? && InBucket(c.B, c.Depth(id), j)
    ensures Scanning(c, st0, Scanned(s.branch[j := Full(id, st0.stash[id])], s.placed + {id}, s.at), order)
  {
    hide Separate, BucketFull, Fitting, Exact, SameContents, InBranch;
    var s' := Scanned(s.branch[j := Full(id, st0.stash[id])], s.placed + {id}, s.at);
    PlaceKeepsContents(s, st0.stash, id, j);
    PlaceKeepsPlaced(s, st0.stash, id, j);
    PlaceKeepsSeparate(s, st0.stash, id, j);
    PlaceFits(c, s, st0.stash, id, j);
    SameContentsJoins(st0, Rest(s, st0.stash), Rest(s', st0.stash));
    forall i | 0 <= i < s.at
      ensures BucketFull(c, s'.branch, order[i])
    {
      PlaceKeepsFull(c, s.branch, j, s'.branch[j], order[i]);
    }
  }

  lemma SameContentsJoins(a: Store, b: Store, d: Store)
    requires SameContents(a, b) && SameContents(b, d)
    ensures SameContents(a, d)
  {
    hide Holds;
  }

  lemma PlaceFits(c: Context, s: Scanned, stash: map<nat, Data>, id: nat, j: nat)
    requires Fitting(c, Rest(s, stash)) && Exact(c, s.branch, |s.branch|)
    requires id != 0 && id != c.requested && id in c.positions && id in stash
    requires j < |s.branch| && InBucket(c.B, c.Depth(id), j)
    ensures var s' := Scanned(s.branch[j := Full(id, stash[id])], s.placed + {id}, s.at);
            Fitting(c, Rest(s', stash)) && Exact(c, s'.branch, |s'.branch|)
  {
    hide Context.Depth;
    var br := s.branch[j := Full(id, stash[id])];
    forall t | 0 <= t < |br| && br[t].Full?
      ensures FitsAt(c, br[t].id, t) && InBucket(c.B, c.Depth(br[t].id), t) && br[t].id != c.requested
    {
      if t != j {
        assert br[t] == s.branch[t];
        assert FitsAt(c, s.branch[t].id, t);
      }
    }
  }

  lemma PlaceKeepsSeparate(s: Scanned, stash: map<nat, Data>, id: nat, j: nat)
    requires j < |s.branch| && id in stash && Separate(Rest(s, stash))
    ensures Separate(Rest(Scanned(s.branch[j := Full(id, stash[id])], s.placed + {id}, s.at), stash))
  {
  }

  lemma PlaceKeepsPlaced(s: Scanned, stash: map<nat, Data>, id: nat, j: nat)
    requires j < |s.branch| && s.branch[j].Free? && id in stash
    requires forall k :: k in s.placed ==> k in stash && InBranch(s.branch, k, stash[k])
    ensures forall k :: k in s.placed + {id} ==> k in stash && InBranch(s.branch[j := Full(id, stash[id])], k, stash[k])
  {
    var br := s.branch[j := Full(id, stash[id])];
    forall k | k in s.placed + {id}
      ensures k in stash && InBranch(br, k, stash[k])
    {
      if k == id {
        assert br[j] == Full(id, stash[id]);
      } else {
        var t :| 0 <= t < |s.branch| && s.branch[t] == Full(k, stash[k]);
        assert br[t] == Full(k, stash[k]);
      }
    }
  }

  // ----- When the scan places a block twice -----

  /** The scan looks at entry `i` before it meets the requested block. */
  ghost predicate Ahead(c: Context, order: seq<nat>, i: nat) {
    i < |order| && forall j :: 0 <= j <= i ==> order[j] != c.requested
  }

  /** The deepest common bucket of block `id` has two free slots. */
  ghost predicate TwoFree(c: Context, br: seq<Slot>, id: nat) {
    exists t, u :: 0 <= t < u < |br| && FreeFor(c, br, id, t) && FreeFor(c, br, id, u)
  }

  ghost predicate FreeFor(c: Context, br: seq<Slot>, id: nat, t: nat) {
    t < |br| && InBucket(c.B, c.Depth(id), t) && br[t].Free?
  }

  /** No stash entry that the scan looks at has two free slots in its deepest common bucket. */
  ghost predicate PlacesOnce(c: Context, br: seq<Slot>, order: seq<nat>) {
    forall i: nat :: i < |order| && Ahead(c, order, i) ==> !TwoFree(c, br, order[i])
  }

  lemma OneSlotPlacesOnce(c: Context, br: seq<Slot>, order: seq<nat>)
    requires c.B == 1
    ensures PlacesOnce(c, br, order)
  {
  }

  /** The scan under `PlacesOnce`: on the revisit the bucket of a placed entry is full. */
  ghost predicate PlacedOnce(c: Context, st0: Store, s: Scanned, order: seq<nat>) {
    && UniqueIn(s.branch)
    && (forall i :: s.at < i < |order| ==> order[i] !in s.placed)
    && (s.at < |order| && order[s.at] in s.placed ==> BucketFull(c, s.branch, order[s.at]))
    && (forall i: nat :: s.at <= i < |order| && Ahead(c, order, i) ==> !TwoFree(c, s.branch, order[i]))
  }

  lemma {:induction false} ScanKeepsUnique(c: Context, st0: Store, s: Scanned, order: seq<nat>)
    requires c.Valid() && Scanning(c, st0, s, order) && Known(c, st0) && NoZero(c, order)
    requires PlacedOnce(c, st0, s, order)
    ensures UniqueIn(Scan(c, s, st0.stash, order).branch)
    decreases |order| - s.at, multiset(s.branch)[Free]
  {
    if !Stops(c, s, order) {
      ScanStepKeeps(c, st0, s, order);
      ScanStepOnce(c, st0, s, order);
      ScanKeepsUnique(c, st0, ScanStep(c, s, st0.stash, order), order);
    }
  }

  lemma ScanStepOnce(c: Context, st0: Store, s: Scanned, order: seq<nat>)
    requires c.Valid() && Scanning(c, st0, s, order) && Known(c, st0) && !Stops(c, s, order)
    requires PlacedOnce(c, st0, s, order)
    ensures PlacedOnce(c, st0, ScanStep(c, s, st0.stash, order), order)
  {
    var j := ScanStepCases(c, s, st0.stash, order);
    if j < |s.branch| {
      PlaceStepOnce(c, st0, s, order, order[s.at], j);
    }
  }

  lemma PlaceStepOnce(c: Context, st0: Store, s: Scanned, order: seq<nat>, id: nat, j: nat)
    requires c.Valid() && Scanning(c, st0, s, order) && PlacedOnce(c, st0, s, order)
    requires s.at < |order| && order[s.at] == id != c.requested
    requires FreeFor(c, s.branch, id, j)
    ensures PlacedOnce(c, st0, Scanned(s.branch[j := Full(id, st0.stash[id])], s.placed + {id}, s.at), order)
  {
    var br := s.branch[j := Full(id, st0.stash[id])];
    PlacedIsNew(c, st0, s, order, j);
    assert Ahead(c, order, s.at);
    forall t: nat | t < |br| && InBucket(c.B, c.Depth(id), t)
      ensures br[t].Full?
    {
      assert t != j && s.branch[t].Free? ==> FreeFor(c, s.branch, id, t);
    }
    forall i: nat | s.at <= i < |order| && Ahead(c, order, i)
      ensures !TwoFree(c, br, order[i])
    {
      FewerFree(c, s.branch, j, Full(id, st0.stash[id]), order[i]);
    }
  }

  /** An entry with a free slot has not been placed yet, and has no copy on the branch. */
  lemma PlacedIsNew(c: Context, st0: Store, s: Scanned, order: seq<nat>, j: nat)
    requires Scanning(c, st0, s, order) && PlacedOnce(c, st0, s, order) && s.at < |order|
    requires FreeFor(c, s.branch, order[s.at], j)
    ensures order[s.at] !in s.placed
    ensures forall t :: 0 <= t < |s.branch| && s.branch[t].Full? ==> s.branch[t].id != order[s.at]
  {
    assert order[s.at] !in s.placed;
    assert order[s.at] in Rest(s, st0.stash).stash;
  }

  lemma FewerFree(c: Context, br: seq<Slot>, j: nat, slot: Slot, id: nat)
    requires j < |br| && slot.Full?
    ensures TwoFree(c, br[j := slot], id) ==> TwoFree(c, br, id)
  {
    var br' := br[j := slot];
    if TwoFree(c, br', id) {
      var t, u :| 0 <= t < u < |br'| && FreeFor(c, br', id, t) && FreeFor(c, br', id, u);
      assert FreeFor(c, br, id, t) && FreeFor(c, br, id, u);
    }
  }

  ghost predicate SameId(br: seq<Slot>, t: nat, u: nat) {
    t < |br| && u < |br| && t != u && br[t].Full? && br[u].Full? && br[t].id == br[u].id
  }

  /** A second copy is there, or is bound to be placed. */
  ghost predicate Doomed(c: Context, s: Scanned, order: seq<nat>) {
    || (exists t: nat, u: nat :: SameId(s.branch, t, u))
    || (exists i: nat :: s.at <= i < |order| && Ahead(c, order, i) && TwoFree(c, s.branch, order[i]))
    || (Ahead(c, order, s.at) && PlacedAndFree(c, s.branch, order[s.at]))
  }

  /** Block `id` has been placed, and its deepest common bucket still has a free slot. */
  ghost predicate PlacedAndFree(c: Context, br: seq<Slot>, id: nat) {
    && (exists t :: 0 <= t < |br| && br[t].Full? && br[t].id == id)
    && (exists u: nat :: FreeFor(c, br, id, u))
  }

  lemma {:induction false} ScanDoomed(c: Context, st0: Store, s: Scanned, order: seq<nat>)
    requires c.Valid() && Scanning(c, st0, s, order) && Known(c, st0) && NoZero(c, order) && Doomed(c, s, order)
    ensures !UniqueIn(Scan(c, s, st0.stash, order).branch)
    decreases |order| - s.at, multiset(s.branch)[Free]
  {
    if Stops(c, s, order) {
      StoppedDoomed(c, s, order);
    } else {
      ScanStepKeeps(c, st0, s, order);
      DoomedStep(c, st0, s, order);
      ScanDoomed(c, st0, ScanStep(c, s, st0.stash, order), order);
    }
  }

  lemma StoppedDoomed(c: Context, s: Scanned, order: seq<nat>)
    requires s.at <= |order| && Stops(c, s, order) && Doomed(c, s, order)
    ensures !UniqueIn(s.branch)
  {
    var t: nat, u: nat :| SameId(s.branch, t, u);
  }

  lemma DoomedStep(c: Context, st0: Store, s: Scanned, order: seq<nat>)
    requires c.Valid() && Scanning(c, st0, s, order) && Known(c, st0) && !Stops(c, s, order) && Doomed(c, s, order)
    ensures Doomed(c, ScanStep(c, s, st0.stash, order), order)
  {
    hide Scanning, Known, Context.Valid, TwoFree, PlacedAndFree, SameId;
    ScanningFacts(c, st0, s, order);
    var id := order[s.at];
    var j := ScanStepCases(c, s, st0.stash, order);
    if exists t: nat, u: nat :: SameId(s.branch, t, u) {
      var t: nat, u: nat :| SameId(s.branch, t, u);
      assert SameId(ScanStep(c, s, st0.stash, order).branch, t, u)
             by { StaysSameId(s.branch, t, u, j, id, st0.stash[id]); }
    } else if j == |s.branch| || j > |s.branch| {
      DoomedAdvance(c, s, order);
    } else {
      DoomedPlace(c, s, order, j, st0.stash[id]);
    }
  }

  lemma ScanningFacts(c: Context, st0: Store, s: Scanned, order: seq<nat>)
    requires Scanning(c, st0, s, order) && Known(c, st0) && !Stops(c, s, order)
    ensures |s.branch| == Start(c.B, c.L) && order[s.at] in st0.stash && order[s.at] != 0 && Ahead(c, order, s.at)
  {
  }

  lemma StaysSameId(br: seq<Slot>, t: nat, u: nat, j: nat, id: nat, data: Data)
    requires SameId(br, t, u) && (j < |br| ==> br[j].Free?)
    ensures j < |br| ==> SameId(br[j := MakeSlot(id, data)], t, u)
  {
  }

  lemma DoomedAdvance(c: Context, s: Scanned, order: seq<nat>)
    requires s.at < |order| && Doomed(c, s, order) && BucketFull(c, s.branch, order[s.at])
    ensures Doomed(c, s.(at := s.at + 1), order)
  {
    hide Ahead;
    if !exists t: nat, u: nat :: SameId(s.branch, t, u) {
      var i: nat :| s.at <= i < |order| && Ahead(c, order, i) && TwoFree(c, s.branch, order[i]);
      assert i != s.at;
    }
  }

  lemma DoomedPlace(c: Context, s: Scanned, order: seq<nat>, j: nat, data: Data)
    requires s.at < |order| && Ahead(c, order, s.at) && order[s.at] != 0 && Doomed(c, s, order)
    requires FreeFor(c, s.branch, order[s.at], j)
    ensures Doomed(c, Scanned(s.branch[j := MakeSlot(order[s.at], data)], s.placed + {order[s.at]}, s.at), order)
  {
    hide Ahead;
    var id := order[s.at];
    var br := s.branch[j := Full(id, data)];
    if exists t: nat, u: nat :: SameId(s.branch, t, u) {
      var t: nat, u: nat :| SameId(s.branch, t, u);
      assert SameId(br, t, u);
    } else if PlacedAndFree(c, s.branch, id) {
      var t: nat :| t < |s.branch| && s.branch[t].Full? && s.branch[t].id == id;
      assert SameId(br, t, j);
    } else {
      var i: nat :| s.at <= i < |order| && Ahead(c, order, i) && TwoFree(c, s.branch, order[i]);
      var t, u :| 0 <= t < u < |s.branch| && FreeFor(c, s.branch, order[i], t) && FreeFor(c, s.branch, order[i], u);
      if j == t || j == u {
        BucketUnique(c.B, c.Depth(order[i]), c.Depth(id), j);
        assert FreeFor(c, br, id, if j == t then u else t);
        assert br[j].Full? && br[j].id == id;
        assert PlacedAndFree(c, br, id);
      } else {
        assert FreeFor(c, br, order[i], t) && FreeFor(c, br, order[i], u);
        assert TwoFree(c, br, order[i]);
      }
    }
  }

  /** The scan leaves every block with one copy if and only if no entry that it looks at has two free
      slots in its deepest common bucket when the scan starts. */
  lemma ScanUniqueIff(c: Context, st0: Store, order: seq<nat>)
    requires c.Valid() && Known(c, st0) && NoZero(c, order) && UniqueIn(st0.branch)
    requires Scanning(c, st0, Scanned(st0.branch, {}, 0), order)
    ensures UniqueIn(Scan(c, Scanned(st0.branch, {}, 0), st0.stash, order).branch) <==> PlacesOnce(c, st0.branch, order)
  {
    var s := Scanned(st0.branch, {}, 0);
    if PlacesOnce(c, st0.branch, order) {
      ScanKeepsUnique(c, st0, s, order);
    } else {
      assert Doomed(c, s, order);
      ScanDoomed(c, st0, s, order);
    }
  }

  // ----- When the scan ends, a block with id 0 in the stash -----

  /** `n` rounds of the loop, or fewer when it is over before. */
  function Rounds(c: Context, s: Scanned, stash: map<nat, Data>, order: seq<nat>, n: nat): (r: Scanned)
    requires s.at <= |order| && forall i :: 0 <= i < |order| ==> order[i] in stash
    ensures r.at <= |order|
    decreases n
  {
    if n == 0 || Stops(c, s, order) then s
    else Rounds(c, ScanStep(c, s, stash, order), stash, order, n - 1)
  }

  ghost predicate Ends(c: Context, s: Scanned, stash: map<nat, Data>, order: seq<nat>)
    requires s.at <= |order| && forall i :: 0 <= i < |order| ==> order[i] in stash
  {
    exists n: nat :: Stops(c, Rounds(c, s, stash, order, n), order)
  }

  /** The entry with id 0 is not looked at, or finds its bucket full: because it is, or because an entry
      before it has the same deepest common bucket and takes all free slots there. */
  ghost predicate PassesZero(c: Context, s: Scanned, order: seq<nat>) {
    forall i: nat :: s.at <= i < |order| && Ahead(c, order, i) && order[i] == 0 ==>
      BucketFull(c, s.branch, 0) || TakenBefore(c, order, s.at, i)
  }

  ghost predicate TakenBefore(c: Context, order: seq<nat>, from: nat, i: nat) {
    i <= |order| && exists j :: from <= j < i && c.Depth(order[j]) == c.Depth(0)
  }

  lemma EndsUnfolds(c: Context, s: Scanned, stash: map<nat, Data>, order: seq<nat>)
    requires s.at <= |order| && forall i :: 0 <= i < |order| ==> order[i] in stash
    requires !Stops(c, s, order)
    ensures ScanStep(c, s, stash, order).at <= |order|
    ensures Ends(c, s, stash, order) <==> Ends(c, ScanStep(c, s, stash, order), stash, order)
  {
    var s' := ScanStep(c, s, stash, order);
    if Ends(c, s, stash, order) {
      var n: nat :| Stops(c, Rounds(c, s, stash, order, n), order);
      assert n > 0;
      assert Stops(c, Rounds(c, s', stash, order, n - 1), order);
    }
    if Ends(c, s', stash, order) {
      var n: nat :| Stops(c, Rounds(c, s', stash, order, n), order);
      assert Rounds(c, s, stash, order, n + 1) == Rounds(c, s', stash, order, n);
    }
  }

  /** A block with id 0 leaves its slot free, so the scan never gets past it. */
  lemma {:induction false} StuckAtZero(c: Context, s: Scanned, stash: map<nat, Data>, order: seq<nat>, n: nat)
    requires c.Valid() && |s.branch| == Start(c.B, c.L) && s.at < |order| && order[s.at] == 0 != c.requested
    requires forall i :: 0 <= i < |order| ==> order[i] in stash
    requires !BucketFull(c, s.branch, 0)
    ensures !Stops(c, Rounds(c, s, stash, order, n), order)
    decreases n
  {
    if n > 0 {
      var j := ScanStepCases(c, s, stash, order);
      assert s.branch[j := Free] == s.branch;
      StuckAtZero(c, ScanStep(c, s, stash, order), stash, order, n - 1);
    }
  }

  lemma {:induction false} EndsIff(c: Context, s: Scanned, stash: map<nat, Data>, order: seq<nat>)
    requires c.Valid() && |s.branch| == Start(c.B, c.L) && s.at <= |order|
    requires forall i :: 0 <= i < |order| ==> order[i] in stash
    requires forall i :: 0 <= i < s.at ==> order[i] != c.requested
    ensures Ends(c, s, stash, order) <==> PassesZero(c, s, order)
    decreases |order| - s.at, multiset(s.branch)[Free]
  {
    if Stops(c, s, order) {
      assert Stops(c, Rounds(c, s, stash, order, 0), order);
    } else {
      var j := ScanStepCases(c, s, stash, order);
      EndsUnfolds(c, s, stash, order);
      if order[s.at] == 0 && j < |s.branch| {
        EndsNot(c, s, stash, order, j);
      } else {
        if j < |s.branch| {
          PassesZeroPlace(c, s, order, j, stash[order[s.at]]);
        } else {
          PassesZeroAdvance(c, s, order);
        }
        EndsIff(c, ScanStep(c, s, stash, order), stash, order);
      }
    }
  }

  lemma EndsNot(c: Context, s: Scanned, stash: map<nat, Data>, order: seq<nat>, j: nat)
    requires c.Valid() && |s.branch| == Start(c.B, c.L) && s.at < |order| && order[s.at] == 0
    requires forall i :: 0 <= i < |order| ==> order[i] in stash
    requires forall i :: 0 <= i <= s.at ==> order[i] != c.requested
    requires FreeFor(c, s.branch, 0, j)
    ensures !Ends(c, s, stash, order) && !PassesZero(c, s, order)
  {
    forall n: nat
      ensures !Stops(c, Rounds(c, s, stash, order, n), order)
    {
      StuckAtZero(c, s, stash, order, n);
    }
    assert Ahead(c, order, s.at);
  }

  lemma PassesZeroAdvance(c: Context, s: Scanned, order: seq<nat>)
    requires s.at < |order| && BucketFull(c, s.branch, order[s.at])
    ensures PassesZero(c, s, order) <==> PassesZero(c, s.(at := s.at + 1), order)
  {
    hide Ahead;
    forall i: nat | s.at < i < |order| && Ahead(c, order, i)
      ensures BucketFull(c, s.branch, 0) || (TakenBefore(c, order, s.at, i) <==> TakenBefore(c, order, s.at + 1, i))
    {
    }
  }

  lemma PassesZeroPlace(c: Context, s: Scanned, order: seq<nat>, j: nat, data: Data)
    requires s.at < |order| && order[s.at] != 0 && FreeFor(c, s.branch, order[s.at], j)
    ensures var s' := Scanned(s.branch[j := MakeSlot(order[s.at], data)], s.placed + {order[s.at]}, s.at);
            PassesZero(c, s, order) <==> PassesZero(c, s', order)
  {
    hide Ahead;
    var br := s.branch[j := MakeSlot(order[s.at], data)];
    forall i: nat | s.at <= i < |order| && Ahead(c, order, i) && order[i] == 0
      ensures TakenBefore(c, order, s.at, i) || (BucketFull(c, s.branch, 0) <==> BucketFull(c, br, 0))
    {
      if c.Depth(order[s.at]) != c.Depth(0) {
        OtherBucket(c, s.branch, j, order[s.at], data);
      } else {
        assert i != s.at;
      }
    }
  }

  /** A placement in another bucket than that of id 0 */
  lemma OtherBucket(c: Context, br: seq<Slot>, j: nat, id: nat, data: Data)
    requires FreeFor(c, br, id, j) && c.Depth(id) != c.Depth(0)
    ensures BucketFull(c, br, 0) <==> BucketFull(c, br[j := MakeSlot(id, data)], 0)
  {
    var br' := br[j := MakeSlot(id, data)];
    forall t | 0 <= t < |br| && InBucket(c.B, c.Depth(0), t)
      ensures br'[t] == br[t]
    {
      if t == j {
        BucketUnique(c.B, c.Depth(id), c.Depth(0), j);
      }
    }
  }
}
