/** With more than one block per bucket the scan of the stash can place a block twice
    (src/single_client.cpp:554-563); `Traversal.TraverseCorrect` says exactly when. Here is that it does. */
module Duplicates {
  import opened Arithmetic
  import opened Wrappers
  import opened Bytes
  import opened Paths
  import opened Slots
  import opened BranchLoop
  import opened Replacement
  import opened StashScan
  import opened Traversal
  import opened Tree
  import opened Refinement
  import opened IdAllocation
  import opened Machine

  lemma {:induction false} WalkOverFree(c: Context, st: Store, n: nat)
    requires n <= |st.branch| && forall s :: 0 <= s < |st.branch| ==> st.branch[s].Free?
    ensures Walk(c, st, n) == Missing(st)
    decreases |st.branch| - n
  {
    if n < |st.branch| {
      WalkOverFree(c, st, n + 1);
    }
  }

  /** An empty branch of `L` buckets, one block in the stash, and a request for a new block on the same
      leaf. */
  function TwoCopiesContext(L: nat, B: nat): Context {
    Context(L, B, map[1 := 1, 2 := 1], 2, 1)
  }

  function TwoCopiesStore(L: nat, B: nat, data: Data): Store {
    Store(seq(Start(B, L), _ => Free), map[1 := data])
  }

  lemma TwoCopies(L: nat, B: nat, data: Data)
    requires L >= 1 && B >= 2
    ensures var c, st := TwoCopiesContext(L, B), TwoCopiesStore(L, B, data);
            Ready(c, st) && ScanOrder(c, st, [1]) && !ScansOnce(c, st, [1])
  {
    var c, st := TwoCopiesContext(L, B), TwoCopiesStore(L, B, data);
    MeetBounds(L, 1, 1);
    WalkOverFree(c, st, 0);
    var j := Start(B, L - 1);
    assert FreeFor(c, st.branch, 1, j) && FreeFor(c, st.branch, 1, j + 1);
    assert TwoFree(c, st.branch, [1][0]);
    assert Ahead(c, [1], 0);
  }

  /** A put of any value never duplicates a block, whatever the branch, the stash, the draws and the
      enumeration order, exactly when buckets have one slot. */
  lemma NoDuplicatesIff(L: nat, B: nat, value: Data)
    requires L >= 1 && B >= 1
    ensures B == 1 <==>
            forall c, st, newLeaf, order ::
              Ready(c, st) && c.L == L && c.B == B && c.requested != 0 && ValidLeaf(L, newLeaf) &&
                  ScanOrder(c, st, order) ==>
              Unique(Traverse(c, st, Write, Some(value), newLeaf, order).st)
  {
    hide FitsAt, Context.Valid, ScanOrder, Unique, ScansOnce, Traverse, Achieves;
    if B == 1 {
      forall c, st, newLeaf, order | Ready(c, st) && c.L == L && c.B == B && c.requested != 0 &&
                                     ValidLeaf(L, newLeaf) && ScanOrder(c, st, order)
        ensures Unique(Traverse(c, st, Write, Some(value), newLeaf, order).st)
      {
        TraverseCorrect(c, st, Write, Some(value), newLeaf, order);
        OneSlotScansOnce(c, st, order);
      }
    } else {
      var c, st := TwoCopiesContext(L, B), TwoCopiesStore(L, B, value);
      TwoCopies(L, B, value);
      Pow2Monotone(0, L - 1);
      TraverseCorrect(c, st, Write, Some(value), 1, [1]);
    }
  }

  lemma OneSlotScansOnce(c: Context, st: Store, order: seq<nat>)
    requires c.B == 1
    ensures ScansOnce(c, st, order)
  {
    OneSlotPlacesOnce(c, Walk(c, st, 0).st.branch, order);
  }

  // ----- A run from the first connection: two levels, two blocks per bucket -----

  /** The tree of three buckets with two slots each, of which only that of leaf 1 is in use. */
  function Small(L: nat, left: seq<Slot>, stash: map<nat, Data>, positions: map<nat, nat>): World {
    World(L, L, [[], [Free, Free], left, [Free, Free]], stash, positions)
  }

  lemma Starts(L: nat)
    requires L == 2
    ensures Start(L, 0) == 0 && Start(L, L - 1) == 2 && Start(L, L) == 4
  {
    assert Start(L, L) == Start(L, L - 1) + L;
    assert Start(L, L - 1) == Start(L, L - 2) + L;
  }

  lemma Powers(L: nat)
    requires L == 2
    ensures Pow2(L - 2) == 1 && Pow2(L - 1) == 2 && Pow2(L) == 4
  {
    assert Pow2(L) == 2 * Pow2(L - 1);
    assert Pow2(L - 1) == 2 * Pow2(L - 2);
  }

  lemma Leaves(L: nat)
    requires L == 2
    ensures ValidLeaf(L, 1) && ValidLeaf(L, 2)
  {
    Powers(L);
  }

  lemma Nodes(L: nat, leaf: nat)
    requires L == 2 && 1 <= leaf <= 2
    ensures ValidLeaf(L, leaf) && Node(L, leaf, 0) == 1 && Node(L, leaf, L - 1) == leaf + 1
  {
    Leaves(L);
    Powers(L);
    hide Pow2, ValidLeaf;
    assert Shr(leaf - 1, L - 1) == Shr((leaf - 1) / 2, L - 2);
  }

  lemma Meets(L: nat)
    requires L == 2
    ensures ValidLeaf(L, 1) && ValidLeaf(L, 2) && Meet(L, 1, 1) == L - 1 && Meet(L, 2, 1) == 0
  {
    Leaves(L);
    Powers(L);
    hide Pow2, ValidLeaf;
    assert MeetFrom(1, 0, L - 1) == MeetFrom(0, 0, L - 2);
  }

  lemma FetchOfTwo(L: nat, t: Buckets<Slot>, leaf: nat)
    requires L == 2 && 1 <= leaf <= 2 && Shaped(L, L, t)
    ensures ValidLeaf(L, leaf) && |t| == 4 && Fetch(L, L, t, leaf) == t[1] + t[leaf + 1]
  {
    Nodes(L, leaf);
    Powers(L);
    hide Pow2, ValidLeaf, Node, Start;
    assert FetchUpTo(L, L, t, leaf, L - 2) == [];
    assert FetchUpTo(L, L, t, leaf, L - 1) == FetchUpTo(L, L, t, leaf, L - 2) + t[1];
    assert FetchUpTo(L, L, t, leaf, L) == FetchUpTo(L, L, t, leaf, L - 1) + t[leaf + 1];
  }

  lemma WriteOfTwo(L: nat, t: Buckets<Slot>, br: seq<Slot>)
    requires L == 2 && Shaped(L, L, t) && |br| == 4
    ensures ValidLeaf(L, 1) && Start(L, L) == 4 && |t| == 4
    ensures WriteBack(L, L, t, 1, br) == t[1 := br[..2]][2 := br[2..]]
  {
    hide Pow2, ValidLeaf, Node, Start, Shaped, WriteBack, WriteUpTo;
    Nodes(L, 1);
    ShapedSize(L, t);
    Starts(L);
    WriteAt(L, L, t, 1, br, L, 0);
    WriteAt(L, L, t, 1, br, L, L - 1);
    OtherKept(L, t, br, 0);
    OtherKept(L, t, br, 3);
    WriteBackIs(L, t, br);
    FourBuckets(t, WriteBack(L, L, t, 1, br), br);
  }

  lemma ShapedSize(L: nat, t: Buckets<Slot>)
    requires L == 2 && Shaped(L, L, t)
    ensures |t| == 4
  {
    Powers(L);
  }

  lemma FourBuckets(t: Buckets<Slot>, t': Buckets<Slot>, br: seq<Slot>)
    requires |t| == |t'| == 4 == |br|
    requires t'[0] == t[0] && t'[3] == t[3] && t'[1] == br[0..2] && t'[2] == br[2..4]
    ensures t' == t[1 := br[..2]][2 := br[2..]]
  {
    assert br[0..2] == br[..2] && br[2..4] == br[2..];
  }

  lemma WriteBackIs(L: nat, t: Buckets<Slot>, br: seq<Slot>)
    requires Shaped(L, L, t) && ValidLeaf(L, 1) && |br| == Start(L, L)
    ensures WriteBack(L, L, t, 1, br) == WriteUpTo(L, L, t, 1, br, L) && |WriteBack(L, L, t, 1, br)| == |t|
  {
  }

  lemma OtherKept(L: nat, t: Buckets<Slot>, br: seq<Slot>, n: nat)
    requires L == 2 && Shaped(L, L, t) && |br| == Start(L, L) && ValidLeaf(L, 1) && n < |t| && n != 1 && n != 2
    ensures WriteBack(L, L, t, 1, br)[n] == t[n]
  {
    hide Node, Pow2, Start, Shaped, WriteBack, ValidLeaf;
    Nodes(L, 1);
    WriteBackFrame(L, L, t, 1, br, n);
  }

  /** The branch to leaf 1 of a small world, and what writing it back makes of the world. */
  lemma SmallAccess(L: nat, left: seq<Slot>, stash: map<nat, Data>, positions: map<nat, nat>, id: nat, left': seq<Slot>,
                    st: Store, positions': map<nat, nat>)
    requires L == 2 && |left| == 2 == |left'| && id in positions && positions[id] == 1
    requires st.branch == [Free, Free] + left'
    ensures var w := Small(L, left, stash, positions);
            && ValidLeaf(L, 1) && Shaped(L, L, w.tree) && |st.branch| == Start(L, L)
            && w.Fetched(1) == Store([Free, Free] + left, stash)
            && w.Rewritten(1, st, positions') == Small(L, left', st.stash, positions')
  {
    hide Pow2, ValidLeaf, Start, Shaped, Fetch, WriteBack;
    var w := Small(L, left, stash, positions);
    SmallShaped(L, left, stash, positions);
    Starts(L);
    FetchOfTwo(L, w.tree, 1);
    WriteOfTwo(L, w.tree, st.branch);
  }

  lemma SmallShaped(L: nat, left: seq<Slot>, stash: map<nat, Data>, positions: map<nat, nat>)
    requires L == 2 && |left| == 2
    ensures ValidLeaf(L, 1) && Shaped(L, L, Small(L, left, stash, positions).tree)
  {
    Powers(L);
    Leaves(L);
    hide Pow2, ValidLeaf;
  }

  /** A put of a new block with an empty stash: what the branch loop leaves, and the block. */
  lemma NewPlaced(c: Context, st: Store, br: seq<Slot>, value: Data, newLeaf: nat)
    requires c.Valid() && ValidLeaf(c.L, newLeaf) && |st.branch| == Start(c.B, c.L) && c.requested != 0
    requires Walk(c, st, 0) == Missing(Store(br, map[]))
    ensures ScanOrder(c, st, []) && Reach(c, newLeaf) <= |br| == |st.branch|
    ensures Traverse(c, st, Write, Some(value), newLeaf, []) ==
            Result(Place(c, Store(br, map[]), value, newLeaf), c.positions[c.requested := newLeaf], Some(value))
  {
    ReachBounds(c, newLeaf);
    var none: map<nat, Data> := map[];
    assert none - {} - {c.requested} == none;
  }

  /** The last slot takes the block. */
  lemma PlacedLast(L: nat, c: Context, br: seq<Slot>, value: Data)
    requires L == 2 && c.L == c.B == L && c.leaf == 1 && |br| == 4 && br[3].Free? && c.requested != 0
    ensures ValidLeaf(L, 1) && Reach(c, 1) == 4
    ensures Place(c, Store(br, map[]), value, 1) == Store(br[3 := Full(c.requested, value)], map[])
  {
    Meets(L);
    Starts(L);
    hide Pow2, ValidLeaf, Start, Meet;
  }

  /** The bucket of leaf 1 is the deepest common one for a block that is mapped there. */
  lemma LeafDepth(L: nat, c: Context, id: nat)
    requires L == 2 && c.L == c.B == L && c.leaf == 1 && id in c.positions && c.positions[id] == 1
    ensures c.Depth(id) == L - 1 && Start(c.B, c.Depth(id)) == 2 && Start(c.B, c.Depth(id) + 1) == 4
  {
    Meets(L);
    Starts(L);
    hide Pow2, ValidLeaf, Start, Meet;
  }

  lemma AllOnLeafOne(L: nat, left: seq<Slot>, positions: map<nat, nat>, id: nat)
    requires L == 2 && |left| == 2 && id in positions && forall i :: i in positions ==> positions[i] == 1
    ensures var w := Small(L, left, map[], positions);
            w.Traversing(id).Valid() && Shaped(L, L, w.tree) && ValidLeaf(L, 1) &&
                |w.Fetched(1).branch| == Start(L, L) == 4
  {
    SmallShaped(L, left, map[], positions);
    Starts(L);
    Leaves(L);
    hide Pow2, ValidLeaf, Start, Shaped;
  }

  lemma PutOne(L: nat, a: Data)
    requires L == 2
    ensures var w, x := Small(L, [Free, Free], map[], map[1 := 1]), Choice(1, 1, 1, []);
            CanAccess(w, Write, Some(a), x) &&
            Accessed(w, Write, Some(a), x) == Small(L, [Free, Full(1, a)], map[], map[1 := 1])
  {
    hide Pow2, ValidLeaf, Start, Shaped, Fetch, WriteBack, Traverse, Place, Walk, Context.Valid, ScanOrder;
    var positions := map[1 := 1];
    var w, left' := Small(L, [Free, Free], map[], positions), [Free, Full(1, a)];
    var st' := Store([Free, Free] + left', map[]);
    SmallAccess(L, [Free, Free], map[], positions, 1, left', st', positions);
    AllOnLeafOne(L, [Free, Free], positions, 1);
    var c, st := w.Traversing(1), w.Fetched(1);
    WalkOverFree(c, st, 0);
    NewPlaced(c, st, st.branch, a, 1);
    PlacedLast(L, c, st.branch, a);
    assert st.branch[3 := Full(1, a)] == st'.branch;
    assert positions[1 := 1] == positions;
  }

  /** The branch loop moves the first block up to make room for the second. */
  lemma WalkMoves(L: nat, c: Context, a: Data)
    requires L == 2 && c.L == c.B == L && c.leaf == 1 && c.requested != 1 && 1 in c.positions && c.positions[1] == 1
    ensures Walk(c, Store([Free, Free, Free, Full(1, a)], map[]), 0) ==
            Missing(Store([Free, Free, Full(1, a), Free], map[]))
  {
    LeafDepth(L, c, 1);
    hide Pow2, ValidLeaf, Start, Context.Depth;
    var st := Store([Free, Free, Free, Full(1, a)], map[]);
    assert FindFree(st.branch, 2, 4) == 2;
    var st' := Visit(c, st, 3);
    assert st' == Store([Free, Free, Full(1, a), Free], map[]);
    assert Walk(c, st', 4) == Missing(st');
    assert Walk(c, st, 3) == Walk(c, st', 4);
    assert Walk(c, st, 2) == Walk(c, st, 3);
    assert Walk(c, st, 1) == Walk(c, st, 2);
  }

  lemma PutTwo(L: nat, a: Data, b: Data)
    requires L == 2
    ensures var w, x := Small(L, [Free, Full(1, a)], map[], map[1 := 1, 2 := 1]), Choice(2, 1, 1, []);
            CanAccess(w, Write, Some(b), x) &&
            Accessed(w, Write, Some(b), x) == Small(L, [Full(1, a), Full(2, b)], map[], map[1 := 1, 2 := 1])
  {
    hide Pow2, ValidLeaf, Start, Shaped, Fetch, WriteBack, Traverse, Place, Walk, Context.Valid, ScanOrder;
    var positions := map[1 := 1, 2 := 1];
    var left, left' := [Free, Full(1, a)], [Full(1, a), Full(2, b)];
    var w, st' := Small(L, left, map[], positions), Store([Free, Free] + left', map[]);
    SmallAccess(L, left, map[], positions, 2, left', st', positions);
    AllOnLeafOne(L, left, positions, 2);
    var c, st := w.Traversing(2), w.Fetched(1);
    assert st.branch == [Free, Free, Free, Full(1, a)];
    WalkMoves(L, c, a);
    NewPlaced(c, st, [Free, Free, Full(1, a), Free], b, 1);
    PlacedLast(L, c, [Free, Free, Full(1, a), Free], b);
    assert [Free, Free, Full(1, a), Free][3 := Full(2, b)] == st'.branch;
    assert positions[2 := 1] == positions;
  }

  /** The branch loop evicts the first block, whose bucket is full, and finds the second. */
  lemma WalkEvicts(L: nat, c: Context, a: Data, b: Data)
    requires L == 2 && c.L == c.B == L && c.leaf == 1 && c.requested == 2 && 1 in c.positions && c.positions[1] == 1
    ensures Walk(c, Store([Free, Free, Full(1, a), Full(2, b)], map[]), 0) ==
            Found(Store([Free, Free, Free, Full(2, b)], map[1 := a]), 3)
  {
    LeafDepth(L, c, 1);
    hide Pow2, ValidLeaf, Start, Context.Depth;
    var st := Store([Free, Free, Full(1, a), Full(2, b)], map[]);
    assert FindFree(st.branch, 2, 4) == 4;
    var st' := Visit(c, st, 2);
    assert st' == Store([Free, Free, Free, Full(2, b)], map[1 := a]);
    assert Walk(c, st', 3) == Found(st', 3);
    assert Walk(c, st, 2) == Walk(c, st', 3);
    assert Walk(c, st, 1) == Walk(c, st, 2);
  }

  lemma LastButOne(b: Data)
    ensures FindFreeDown([Free, Free, Free, Full(2, b)], 4) == 3
  {
  }

  /** A get of a block in the last slot: it moves to the slot that has become free. */
  lemma GetMoves(L: nat, c: Context, st: Store, a: Data, b: Data, zeros: Data)
    requires L == 2 && c.L == c.B == L && c.leaf == 1 && c.requested == 2 && c.Valid()
    requires |st.branch| == Start(L, L) == 4
    requires Walk(c, st, 0) == Found(Store([Free, Free, Free, Full(2, b)], map[1 := a]), 3)
    ensures ValidLeaf(L, 1) && ScanOrder(c, st, [])
    ensures Traverse(c, st, Read, Some(zeros), 1, []) ==
            Result(Store([Free, Free, Full(2, b), Free], map[1 := a]), c.positions[2 := 1], Some(b))
  {
    hide Pow2, ValidLeaf, Start, Meet, Context.Valid, Walk, Scan, FindFreeDown, Place;
    Meets(L);
    Starts(L);
    LastButOne(b);
    var w := Store([Free, Free, Free, Full(2, b)], map[1 := a]);
    assert Reach(c, 1) == 4;
    assert Relocate(w, 3, 4, b).branch == [Free, Free, Full(2, b), Free];
  }

  lemma GetTwo(L: nat, a: Data, b: Data, zeros: Data)
    requires L == 2
    ensures var w, x := Small(L, [Full(1, a), Full(2, b)], map[], map[1 := 1, 2 := 1]), Choice(2, 1, 1, []);
            && CanAccess(w, Read, Some(zeros), x)
            && Accessed(w, Read, Some(zeros), x) == Small(L, [Full(2, b), Free], map[1 := a], map[1 := 1, 2 := 1])
            && Traversed(w, Read, Some(zeros), x).buffer == Some(b)
  {
    hide Pow2, ValidLeaf, Start, Shaped, Fetch, WriteBack, Traverse, Walk, Context.Valid, ScanOrder;
    var positions := map[1 := 1, 2 := 1];
    var left, left' := [Full(1, a), Full(2, b)], [Full(2, b), Free];
    var w, st' := Small(L, left, map[], positions), Store([Free, Free] + left', map[1 := a]);
    SmallAccess(L, left, map[], positions, 2, left', st', positions);
    AllOnLeafOne(L, left, positions, 2);
    var c, st := w.Traversing(2), w.Fetched(1);
    assert st.branch == [Free, Free, Full(1, a), Full(2, b)];
    WalkEvicts(L, c, a, b);
    GetMoves(L, c, st, a, b, zeros);
    assert st'.branch == [Free, Free, Full(2, b), Free];
    assert positions[2 := 1] == positions;
  }

  /** The next put fetches the other branch, whose root has two free slots for the block in the stash. */
  lemma PutThree(L: nat, a: Data, b: Data, value: Data)
    requires L == 2
    ensures var w, x := Small(L, [Full(2, b), Free], map[1 := a], map[1 := 1, 2 := 1, 3 := 2]), Choice(3, 2, 2, [1]);
            CanAccess(w, Write, Some(value), x) && !Tidy(w, x)
  {
    hide Pow2, ValidLeaf, Start, Shaped, Fetch, Context.Valid, TwoFree, Ahead, Walk;
    var positions := map[1 := 1, 2 := 1, 3 := 2];
    var w, x := Small(L, [Full(2, b), Free], map[1 := a], positions), Choice(3, 2, 2, [1]);
    SmallShaped(L, [Full(2, b), Free], map[1 := a], positions);
    FetchOfTwo(L, w.tree, 2);
    var c, st := w.Traversing(3), w.Fetched(2);
    assert st.branch == [Free, Free, Free, Free];
    PositionsValid(L, c);
    WalkOverFree(c, st, 0);
    RootFree(L, c, st.branch);
    NotOnce(c, st.branch, x.order);
  }

  lemma NotOnce(c: Context, br: seq<Slot>, order: seq<nat>)
    requires |order| > 0 && Ahead(c, order, 0) && TwoFree(c, br, order[0])
    ensures !PlacesOnce(c, br, order)
  {
  }

  lemma PositionsValid(L: nat, c: Context)
    requires L == 2 && c.L == c.B == L && c.leaf == 2 && c.requested == 3 && c.positions == map[1 := 1, 2 := 1, 3 := 2]
    ensures c.Valid()
  {
    Leaves(L);
    hide ValidLeaf;
  }

  lemma RootFree(L: nat, c: Context, br: seq<Slot>)
    requires L == 2 && c.L == c.B == L && c.leaf == 2 && c.requested == 3 && c.positions == map[1 := 1, 2 := 1, 3 := 2]
    requires |br| == 4 && br[0].Free? && br[1].Free?
    ensures TwoFree(c, br, 1) && Ahead(c, [1], 0)
  {
    Meets(L);
    Starts(L);
    hide ValidLeaf, Meet, Pow2, Start;
    assert c.Depth(1) == 0;
    assert FreeFor(c, br, 1, 0) && FreeFor(c, br, 1, 1);
  }

  /** An access that scans nothing is tidy. */
  lemma NothingScanned(w: World, x: Choice)
    requires x.order == []
    ensures Tidy(w, x)
  {
  }

  lemma NewPut(idSpace: nat, p: Pair, key: Key, value: Data, x: Choice, p': Pair)
    requires key !in p.keys && 0 < x.id < idSpace && ValidLeaf(p.world.L, x.mapLeaf) && x.id !in p.world.positions
    requires forall j :: 0 < j < x.id ==> j in p.world.positions
    requires var w := p.world.(positions := p.world.positions[x.id := x.mapLeaf]);
             && CanAccess(w, Write, Some(value), x)
             && p' == Pair(Accessed(w, Write, Some(value), x), p.keys[key := x.id])
    ensures PutStep(idSpace, p, key, value, x, p')
  {
    hide CanAccess, Accessed, Wrap;
    LeastIsSearched(p.world.positions, idSpace, x.id);
  }

  /** From the first connection on, two puts, a get and a put lead to a tree with two copies of a block:
      for any keys and values, with all draws but the last two on leaf 1. */
  lemma DuplicatesReachable(L: nat, idSpace: nat, k1: Key, k2: Key, k3: Key, a: Data, b: Data, value: Data)
    returns (run: Run)
    requires L == 2 && idSpace > 3 && k1 != k2 && k1 != k3 && k2 != k3
    ensures run.Steps(idSpace) && run.states[0] == Pair(Small(L, [Free, Free], map[], map[]), map[])
    ensures run.requests == [PutRequest(k1, a), PutRequest(k2, b), GetRequest(k2), PutRequest(k3, value)]
    ensures var w := run.states[4].world; !OneCopy(w.tree, w.stash)
  {
    hide *;
    var p0 := Pair(Small(L, [Free, Free], map[], map[]), map[]);
    var p1 := Pair(Small(L, [Free, Full(1, a)], map[], map[1 := 1]), map[k1 := 1]);
    var p2 := Pair(Small(L, [Full(1, a), Full(2, b)], map[], map[1 := 1, 2 := 1]), map[k1 := 1, k2 := 2]);
    var p3 := Pair(Small(L, [Full(2, b), Free], map[1 := a], map[1 := 1, 2 := 1]), map[k1 := 1, k2 := 2]);
    var x1, x2, x4 := Choice(1, 1, 1, []), Choice(2, 1, 1, []), Choice(3, 2, 2, [1]);
    FirstStep(L, idSpace, k1, a);
    SecondStep(L, idSpace, k1, k2, a, b);
    ThirdStep(L, k1, k2, a, b);
    SmallIsGood(L, idSpace);
    TidySteps(p0, p1, p2, x1, x2);
    StepCorrect(idSpace, p0, map[], PutRequest(k1, a), x1, Response(0, []), p1);
    assert Update(map[], PutRequest(k1, a)) == map[k1 := a] by { UpdatesPut(map[], k1, a); }
    RoomForSmall(idSpace, map[], PutRequest(k1, a));
    StepCorrect(idSpace, p1, map[k1 := a], PutRequest(k2, b), x2, Response(0, []), p2);
    UpdatesPut(map[k1 := a], k2, b);
    RoomForSmall(idSpace, map[k1 := a], PutRequest(k2, b));
    var m := map[k1 := a][k2 := b];
    StepCorrect(idSpace, p2, m, GetRequest(k2), x2, Response(0, [b]), p3);
    UpdatesGet(m, k2);
    RoomForSmall(idSpace, m, GetRequest(k2));
    var p4 := LastStep(L, idSpace, k1, k2, k3, a, b, value, m);
    run := Run([p0, p1, p2, p3, p4],
               [PutRequest(k1, a), PutRequest(k2, b), GetRequest(k2), PutRequest(k3, value)],
               [x1, x2, x2, x4],
               [Response(0, []), Response(0, []), Response(0, [b]), Response(0, [])]);
    FourSteps(idSpace, run);
  }

  lemma FourSteps(idSpace: nat, run: Run)
    requires |run.states| == 5 && |run.requests| == |run.choices| == |run.responses| == 4
    requires Step(idSpace, run.states[0], run.requests[0], run.choices[0], run.responses[0], run.states[1])
    requires Step(idSpace, run.states[1], run.requests[1], run.choices[1], run.responses[1], run.states[2])
    requires Step(idSpace, run.states[2], run.requests[2], run.choices[2], run.responses[2], run.states[3])
    requires Step(idSpace, run.states[3], run.requests[3], run.choices[3], run.responses[3], run.states[4])
    ensures run.Steps(idSpace)
  {
    hide Step;
  }

  lemma UpdatesPut(m: map<Key, Data>, key: Key, value: Data)
    ensures Update(m, PutRequest(key, value)) == m[key := value]
  {
  }

  lemma UpdatesGet(m: map<Key, Data>, key: Key)
    ensures Update(m, GetRequest(key)) == m
  {
  }

  lemma RoomForSmall(idSpace: nat, m: map<Key, Data>, r: Request)
    requires (idSpace > 3 && |m| <= 1) || !r.PutRequest?
    ensures HasRoom(idSpace, m, r)
  {
  }

  lemma TidySteps(p0: Pair, p1: Pair, p2: Pair, x1: Choice, x2: Choice)
    requires x1.order == [] && x2.order == []
    ensures forall r: Request :: TidyStep(p0, r, x1) && TidyStep(p1, r, x2) && TidyStep(p2, r, x2)
  {
    forall w
      ensures Tidy(w, x1) && Tidy(w, x2)
    {
      NothingScanned(w, x1);
      NothingScanned(w, x2);
    }
  }

  lemma SmallIsGood(L: nat, idSpace: nat)
    requires L == 2 && idSpace > 3
    ensures Good(idSpace, Pair(Small(L, [Free, Free], map[], map[]), map[]), map[])
  {
    SmallShaped(L, [Free, Free], map[], map[]);
    hide Shaped, Good;
    EmptyIsGood(idSpace, Small(L, [Free, Free], map[], map[]));
  }

  lemma FirstStep(L: nat, idSpace: nat, k1: Key, a: Data)
    requires L == 2 && idSpace > 3
    ensures Step(idSpace, Pair(Small(L, [Free, Free], map[], map[]), map[]), PutRequest(k1, a), Choice(1, 1, 1, []),
            Response(0, []),
                 Pair(Small(L, [Free, Full(1, a)], map[], map[1 := 1]), map[k1 := 1]))
  {
    hide CanAccess, Accessed, ValidLeaf, PutStep;
    var p := Pair(Small(L, [Free, Free], map[], map[]), map[]);
    PutOne(L, a);
    Leaves(L);
    NewPut(idSpace, p, k1, a, Choice(1, 1, 1, []),
        Pair(Small(L, [Free, Full(1, a)], map[], map[1 := 1]), p.keys[k1 := 1]));
  }

  lemma SecondStep(L: nat, idSpace: nat, k1: Key, k2: Key, a: Data, b: Data)
    requires L == 2 && idSpace > 3 && k1 != k2
    ensures Step(idSpace, Pair(Small(L, [Free, Full(1, a)], map[], map[1 := 1]), map[k1 := 1]), PutRequest(k2, b),
                 Choice(2, 1, 1, []), Response(0, []),
                 Pair(Small(L, [Full(1, a), Full(2, b)], map[], map[1 := 1, 2 := 1]), map[k1 := 1, k2 := 2]))
  {
    hide CanAccess, Accessed, ValidLeaf, PutStep;
    var p := Pair(Small(L, [Free, Full(1, a)], map[], map[1 := 1]), map[k1 := 1]);
    PutTwo(L, a, b);
    Leaves(L);
    assert map[1 := 1][2 := 1] == map[1 := 1, 2 := 1];
    assert p.keys[k2 := 2] == map[k1 := 1, k2 := 2];
    NewPut(idSpace, p, k2, b, Choice(2, 1, 1, []),
           Pair(Small(L, [Full(1, a), Full(2, b)], map[], map[1 := 1, 2 := 1]), p.keys[k2 := 2]));
  }

  lemma ThirdStep(L: nat, k1: Key, k2: Key, a: Data, b: Data)
    requires L == 2 && k1 != k2
    ensures forall idSpace ::
            Step(idSpace, Pair(Small(L, [Full(1, a), Full(2, b)], map[], map[1 := 1, 2 := 1]), map[k1 := 1, k2 := 2]),
                 GetRequest(k2), Choice(2, 1, 1, []), Response(0, [b]),
                 Pair(Small(L, [Full(2, b), Free], map[1 := a], map[1 := 1, 2 := 1]), map[k1 := 1, k2 := 2]))
  {
    hide CanAccess, Accessed, Traversed;
    GetTwo(L, a, b, []);
    var p := Pair(Small(L, [Full(1, a), Full(2, b)], map[], map[1 := 1, 2 := 1]), map[k1 := 1, k2 := 2]);
    var p' := Pair(Small(L, [Full(2, b), Free], map[1 := a], map[1 := 1, 2 := 1]), map[k1 := 1, k2 := 2]);
    assert GetStep(p, k2, [], Choice(2, 1, 1, []), Some(b), p');
    assert GotStep(p, k2, Choice(2, 1, 1, []), Some(b), p');
  }

  lemma LastStep(L: nat, idSpace: nat, k1: Key, k2: Key, k3: Key, a: Data, b: Data, value: Data, m: map<Key, Data>)
    returns (p': Pair)
    requires L == 2 && idSpace > 3 && k1 != k2 && k1 != k3 && k2 != k3
    requires Good(idSpace, Pair(Small(L, [Full(2, b), Free], map[1 := a], map[1 := 1, 2 := 1]), map[k1 := 1, k2 := 2]),
             m)
    ensures Step(idSpace, Pair(Small(L, [Full(2, b), Free], map[1 := a], map[1 := 1, 2 := 1]), map[k1 := 1, k2 := 2]),
                 PutRequest(k3, value), Choice(3, 2, 2, [1]), Response(0, []), p')
    ensures !OneCopy(p'.world.tree, p'.world.stash)
  {
    hide *;
    var p := Pair(Small(L, [Full(2, b), Free], map[1 := a], map[1 := 1, 2 := 1]), map[k1 := 1, k2 := 2]);
    var x := Choice(3, 2, 2, [1]);
    var w := Small(L, [Full(2, b), Free], map[1 := a], map[1 := 1, 2 := 1, 3 := 2]);
    ThirdId(L, [Full(2, b), Free], map[1 := a]);
    PutThree(L, a, b, value);
    Leaves(L);
    GoodFacts(idSpace, p, m);
    MapNewId(p.world, 3, 2);
    AccessKeeps(w, Write, Some(value), x);
    p' := Pair(Accessed(w, Write, Some(value), x), p.keys[k3 := 3]);
    NewPut(idSpace, p, k3, value, x, p');
    PutStepIs(idSpace, p, k3, value, x, p');
    PlacedCopies(Accessed(w, Write, Some(value), x), p'.world);
  }

  lemma PlacedCopies(w: World, w': World)
    requires w == w'
    ensures OneCopy(w.tree, w.stash) <==> OneCopy(w'.tree, w'.stash)
  {
  }

  lemma PutStepIs(idSpace: nat, p: Pair, key: Key, value: Data, x: Choice, p': Pair)
    requires PutStep(idSpace, p, key, value, x, p')
    ensures Step(idSpace, p, PutRequest(key, value), x, Response(0, []), p')
  {
    hide PutStep;
  }

  lemma ThirdId(L: nat, left: seq<Slot>, stash: map<nat, Data>)
    ensures var w := Small(L, left, stash, map[1 := 1, 2 := 1]);
            && w.L == L && w.positions == map[1 := 1, 2 := 1] && 3 !in w.positions &&
               (forall j :: 0 < j < 3 ==> j in w.positions)
            && Small(L, left, stash, map[1 := 1, 2 := 1, 3 := 2]) == w.(positions := w.positions[3 := 2])
  {
    assert map[1 := 1, 2 := 1][3 := 2] == map[1 := 1, 2 := 1, 3 := 2];
  }
}
