/** What happens when the block ids run out (src/single_client.cpp:193-203): the key that gets id 0, and
    the key after it, which gets the id of another one. */
module Exhausted {
  import opened Arithmetic
  import opened Wrappers
  import opened Bytes
  import opened Paths
  import opened Slots
  import opened BranchLoop
  import opened Replacement
  import opened Traversal
  import opened Tree
  import opened Refinement
  import opened IdAllocation
  import opened Machine
  import opened ZeroId

  // ----- Accesses to id 0 -----

  /** The world but for id 0 */
  ghost function WithoutZero(w: World): World {
    w.(stash := w.stash - {0}, positions := w.positions - {0})
  }

  /** Id 0 is mapped, and the main invariant holds for all others. */
  ghost predicate Zeroed(w: World) {
    0 in w.positions && ValidLeaf(w.L, w.positions[0]) && WithoutZero(w).Consistent()
  }

  /** The world with id 0 mapped but nothing held under it */
  ghost function Emptied(w: World): World {
    w.(stash := w.stash - {0})
  }

  lemma EmptiedConsistent(w: World)
    requires Zeroed(w)
    ensures Emptied(w).Consistent()
  {
    MapNewId(WithoutZero(w), 0, w.positions[0]);
    assert (w.positions - {0})[0 := w.positions[0]] == w.positions;
  }

  lemma ZeroReady(w: World)
    requires Zeroed(w)
    ensures Shaped(w.L, w.B, w.tree) && Ready(w.Traversing(0), w.Fetched(w.positions[0]))
  {
    EmptiedConsistent(w);
    FetchedIsReady(Emptied(w), 0);
    ReadyWithZero(w.Traversing(0), Emptied(w).Fetched(w.positions[0]), w.stash);
  }

  lemma ReadyWithZero(c: Context, st: Store, stash: map<nat, Data>)
    requires Ready(c, st) && c.requested == 0 && st.stash == stash - {0}
    ensures Ready(c, st.(stash := stash))
  {
  }

  /** What the scan leaves of branch and stash when id 0 was requested */
  ghost function LeftOver(w: World, x: Choice): Store
    requires Zeroed(w) && x.id == 0 && Shaped(w.L, w.B, w.tree)
    requires ScanOrder(w.Traversing(0), w.Fetched(w.positions[0]), x.order)
  {
    var c, st := w.Traversing(0), w.Fetched(w.positions[0]);
    ZeroReady(w);
    ZeroMissing(c, st);
    Cleared(c, Walk(c, st, 0).st, x.order)
  }

  /** An access to id 0 keeps every other pair, and the main invariant for the others if and only if it is
      tidy. A put holds its value, and a get what it hands back, if and only if no slot within reach is
      free when the scan is over; a clear forgets it. */
  lemma ZeroAccess(w: World, op: Operation, buffer: Option<Data>, x: Choice)
    requires Zeroed(w) && x.id == 0 && CanAccess(w, op, buffer, x)
    ensures var w', value := Accessed(w, op, buffer, x), ZeroValue(op, buffer, Held(w.stash));
            && WithoutZero(w').Placed() && WithoutZero(w').positions == WithoutZero(w).positions && w'.L == w.L
            && (OneCopy(WithoutZero(w').tree, WithoutZero(w').stash) <==> Tidy(w, x))
            && (forall id, d :: WithoutZero(w').Stored(id, d) <==> WithoutZero(w).Stored(id, d))
            && Held(w'.stash) == (if !op.Clear? && NoneFree(w.Traversing(0), LeftOver(w, x).branch, x.newLeaf)
                                  then Some(value) else None)
            && w'.positions == (if op.Clear? then w.positions else w.positions[0 := x.newLeaf])
            && 0 in w'.positions && ValidLeaf(w'.L, w'.positions[0])
            && (op.Read? ==> Traversed(w, op, buffer, x).buffer == Some(value))
  {
    hide *;
    ZeroTraversal(w, op, buffer, x);
    EmptiedConsistent(w);
    var leaf, rest, r := w.positions[0], LeftOver(w, x), Traversed(w, op, buffer, x);
    var w1 := Emptied(w);
    EmptiedIs(w);
    RestRewrites(w, x, r.positions);
    RewrittenOnOwnPath(w1, 0, rest, r.positions);
    RewrittenOneCopyIff(w1, 0, rest, r.positions);
    RestStored(w, x, r.positions);
    AccessedIs(w, op, buffer, x);
    RewrittenIs(w1, leaf, rest, r.positions);
    ZeroedFacts(w);
    assert w.positions[0 := x.newLeaf] - {0} == w.positions - {0};
    DropZero(w1.Rewritten(leaf, rest, r.positions), w, Accessed(w, op, buffer, x));
    WithoutZeroIs(Accessed(w, op, buffer, x));
  }

  lemma EmptiedIs(w: World)
    ensures var w1 := Emptied(w);
            w1.L == w.L && w1.B == w.B && w1.tree == w.tree && w1.positions == w.positions && w1.stash == w.stash - {0}
    ensures 0 in w.positions ==> Emptied(w).Traversing(0) == w.Traversing(0)
  {
  }

  /** The traversal of the access */
  lemma ZeroTraversal(w: World, op: Operation, buffer: Option<Data>, x: Choice)
    requires Zeroed(w) && x.id == 0 && CanAccess(w, op, buffer, x)
    ensures Shaped(w.L, w.B, w.tree) && 0 in w.positions && ValidLeaf(w.L, w.positions[0])
    ensures ScanOrder(w.Traversing(0), w.Fetched(w.positions[0]), x.order)
    ensures var rest, r, value := LeftOver(w, x), Traversed(w, op, buffer, x), ZeroValue(op, buffer, Held(w.stash));
            && |rest.branch| == Start(w.B, w.L) && 0 !in rest.stash && r.st.branch == rest.branch
            && r.st.stash - {0} == rest.stash
            && Held(r.st.stash) ==
               (if !op.Clear? && NoneFree(w.Traversing(0), rest.branch, x.newLeaf) then Some(value) else None)
            && r.positions == (if op.Clear? then w.positions else w.positions[0 := x.newLeaf])
            && (op.Read? ==> r.buffer == Some(value)) && ValidLeaf(w.L, x.newLeaf)
  {
    var c, st := w.Traversing(0), w.Fetched(w.positions[0]);
    ZeroReady(w);
    ZeroTraverse(c, st, op, buffer, x.newLeaf, x.order);
    ClearedStore(c, st, x.order);
    hide Zeroed, Ready, Walk, Traverse, ScanOrder, NoneFree, ReadsNull, Fitting;
    FittingSize(c, LeftOver(w, x));
  }

  lemma FittingSize(c: Context, st: Store)
    requires Fitting(c, st)
    ensures |st.branch| == Start(c.B, c.L)
  {
  }

  /** The left-over branch may be written back to the world without id 0. */
  lemma RestRewrites(w: World, x: Choice, positions: map<nat, nat>)
    requires Zeroed(w) && x.id == 0 && Shaped(w.L, w.B, w.tree)
    requires ScanOrder(w.Traversing(0), w.Fetched(w.positions[0]), x.order)
    requires positions == w.positions || exists leaf :: ValidLeaf(w.L, leaf) && positions == w.positions[0 := leaf]
    ensures Rewrites(Emptied(w), 0, LeftOver(w, x), positions) && (Unique(LeftOver(w, x)) <==> Tidy(w, x))
  {
    hide *;
    ZeroedFacts(w);
    var c, st, rest := w.Traversing(0), w.Fetched(w.positions[0]), LeftOver(w, x);
    EmptiedConsistent(w);
    EmptiedIs(w);
    LeftOverFacts(w, x);
    RestFits(c, rest, positions);
    PositionsFacts(w, positions);
    RewritesIs(Emptied(w), rest, positions);
  }

  lemma LeftOverFacts(w: World, x: Choice)
    requires Zeroed(w) && x.id == 0 && Shaped(w.L, w.B, w.tree)
    requires ScanOrder(w.Traversing(0), w.Fetched(w.positions[0]), x.order)
    ensures 0 in w.positions && ValidLeaf(w.L, w.positions[0])
    ensures var c, rest := w.Traversing(0), LeftOver(w, x);
            && c.requested == 0 && c.positions == w.positions && c.L == w.L && c.B == w.B && c.leaf == w.positions[0]
            && Fitting(c, rest) && 0 !in rest.stash && (Unique(rest) <==> Tidy(w, x))
            && (forall id, data :: Holds(rest, id, data) ==> Contains(Emptied(w).Fetched(w.positions[0]), id))
  {
    var c, st, rest := w.Traversing(0), w.Fetched(w.positions[0]), LeftOver(w, x);
    ZeroReady(w);
    ZeroMissing(c, st);
    ClearedStore(c, st, x.order);
    EmptiedHolds(c, st, Emptied(w).Fetched(w.positions[0]));
    hide Walk, Ready, ScanOrder, Cleared, World.OnOwnPath, OneCopy, Holds, Fitting, Separate, Unique, Zeroed, ScansOnce;
    ContainsNothing(rest);
    forall id, data | Holds(rest, id, data)
      ensures Contains(Emptied(w).Fetched(w.positions[0]), id)
    {
      assert Holds(Emptied(w).Fetched(w.positions[0]), id, data);
    }
  }

  lemma ContainsNothing(st: Store)
    ensures !Contains(st, 0) ==> 0 !in st.stash
  {
    assert 0 in st.stash ==> Holds(st, 0, st.stash[0]);
  }

  lemma PositionsFacts(w: World, positions: map<nat, nat>)
    requires Zeroed(w)
    requires positions == w.positions || exists leaf :: ValidLeaf(w.L, leaf) && positions == w.positions[0 := leaf]
    ensures positions.Keys == w.positions.Keys && positions - {0} == w.positions - {0}
    ensures forall id :: id in positions ==> ValidLeaf(w.L, positions[id])
    ensures forall id :: id in w.positions && id != 0 ==> positions[id] == w.positions[id]
  {
    hide OneCopy, Shaped, ValidLeaf;
    EmptiedConsistent(w);
  }

  lemma RewritesIs(w: World, rest: Store, positions: map<nat, nat>)
    requires w.Consistent() && 0 in w.positions && 0 !in rest.stash
    requires Fitting(w.Traversing(0).(positions := positions), rest)
    requires Shaped(w.L, w.B, w.tree) && ValidLeaf(w.L, w.positions[0])
    requires forall id, data :: Holds(rest, id, data) ==> Contains(w.Fetched(w.positions[0]), id)
    requires forall id :: id in positions ==> ValidLeaf(w.L, positions[id])
    requires forall id :: id in w.positions && id != 0 ==> id in positions && positions[id] == w.positions[id]
    ensures Rewrites(w, 0, rest, positions)
  {
    hide Fitting, World.Consistent, Holds, Shaped, ValidLeaf;
  }

  /** The leaf of id 0 does not matter to the others. */
  lemma RestFits(c: Context, rest: Store, positions: map<nat, nat>)
    requires Fitting(c, rest) && c.requested == 0 && 0 !in rest.stash
    requires positions.Keys == c.positions.Keys && positions - {0} == c.positions - {0}
    ensures Fitting(c.(positions := positions), rest)
  {
    forall s | 0 <= s < |rest.branch| && rest.branch[s].Full?
      ensures FitsAt(c.(positions := positions), rest.branch[s].id, s)
    {
      var id := rest.branch[s].id;
      assert FitsAt(c, id, s);
      assert id in c.positions - {0};
      assert positions[id] == (positions - {0})[id] == c.positions[id];
    }
  }

  lemma RestStored(w: World, x: Choice, positions: map<nat, nat>)
    requires Zeroed(w) && x.id == 0 && Shaped(w.L, w.B, w.tree)
    requires ScanOrder(w.Traversing(0), w.Fetched(w.positions[0]), x.order)
    requires |LeftOver(w, x).branch| == Start(w.B, w.L)
    ensures forall id, d :: Emptied(w).Rewritten(w.positions[0], LeftOver(w, x), positions).Stored(id, d) <==>
                            Emptied(w).Stored(id, d)
  {
    var leaf, rest := w.positions[0], LeftOver(w, x);
    var c, st, st1 := w.Traversing(0), w.Fetched(leaf), Emptied(w).Fetched(leaf);
    ZeroReady(w);
    ZeroMissing(c, st);
    ClearedStore(c, st, x.order);
    EmptiedHolds(c, st, st1);
    hide Walk, Ready, ScanOrder, Cleared, LeftOver, Zeroed, World.Stored, World.OffPath, Holds;
    forall id, d
      ensures Emptied(w).Rewritten(leaf, rest, positions).Stored(id, d) <==> Emptied(w).Stored(id, d)
    {
      RewrittenStored(Emptied(w), leaf, rest, positions, id, d);
      StoredSplits(Emptied(w), leaf, id, d);
    }
  }

  lemma EmptiedHolds(c: Context, st: Store, st1: Store)
    requires Fitting(c, st) && st1 == st.(stash := st.stash - {0})
    ensures forall id, d :: Holds(st1, id, d) <==> id != 0 && Holds(st, id, d)
  {
  }

  lemma ZeroedFacts(w: World)
    requires Zeroed(w)
    ensures 0 in w.positions && ValidLeaf(w.L, w.positions[0]) && WithoutZero(w).Consistent()
  {
  }

  lemma WithoutZeroIs(w: World)
    ensures WithoutZero(w) == World(w.L, w.B, w.tree, w.stash - {0}, w.positions - {0})
  {
  }

  lemma AccessedIs(w: World, op: Operation, buffer: Option<Data>, x: Choice)
    requires CanAccess(w, op, buffer, x)
    ensures Shaped(w.L, w.B, w.tree) && x.id in w.positions && ValidLeaf(w.L, w.positions[x.id])
    ensures var r := Traversed(w, op, buffer, x);
            && |r.st.branch| == Start(w.B, w.L)
            && Accessed(w, op, buffer, x) ==
               World(w.L, w.B, WriteBack(w.L, w.B, w.tree, w.positions[x.id], r.st.branch), r.st.stash, r.positions)
  {
    TraversedSize(w, op, buffer, x);
    hide Traverse;
  }

  /** Nothing is stored under id 0, so its leaf can be dropped. */
  lemma DropZero(w1: World, w: World, w': World)
    requires w1 == World(w.L, w.B, w'.tree, w'.stash - {0}, w'.positions) && w'.L == w.L && w'.B == w.B
    requires w1.OnOwnPath() && Shaped(w1.L, w1.B, w1.tree) && WithoutZero(w).Consistent()
    requires w'.positions - {0} == w.positions - {0}
    requires forall id, d :: w1.Stored(id, d) <==> Emptied(w).Stored(id, d)
    ensures WithoutZero(w').Placed() && WithoutZero(w').positions == WithoutZero(w).positions
    ensures OneCopy(WithoutZero(w').tree, WithoutZero(w').stash) <==> OneCopy(w1.tree, w1.stash)
    ensures forall id, d :: WithoutZero(w').Stored(id, d) <==> WithoutZero(w).Stored(id, d)
  {
    hide OneCopy, Shaped;
    forall id, d
      ensures WithoutZero(w').Stored(id, d) <==> WithoutZero(w).Stored(id, d)
    {
      StoredIgnoresPositions(w1, w.positions - {0}, id, d);
      StoredIgnoresPositions(Emptied(w), w.positions - {0}, id, d);
    }
  }

  // ----- The key with id 0 -----

  /** Key `zk` has id 0, and but for it the state stands for `m`. */
  ghost predicate Spent(idSpace: nat, p: Pair, zk: Key, m: map<Key, Data>) {
    && zk in p.keys && p.keys[zk] == 0 && zk !in m
    && 0 in p.world.positions && ValidLeaf(p.world.L, p.world.positions[0])
    && Good(idSpace, Pair(WithoutZero(p.world), p.keys - {zk}), m)
  }

  lemma SpentFacts(idSpace: nat, p: Pair, zk: Key, m: map<Key, Data>)
    requires Spent(idSpace, p, zk, m)
    ensures zk in p.keys && p.keys[zk] == 0 && zk !in m && Zeroed(p.world) && |p.world.positions| == |m| + 1
    ensures Good(idSpace, Pair(WithoutZero(p.world), p.keys - {zk}), m)
    ensures IdsBelow(p.world.positions, idSpace)
  {
    hide Good, World.Consistent;
    var positions := p.world.positions;
    GoodFacts(idSpace, Pair(WithoutZero(p.world), p.keys - {zk}), m);
    OneMoreId(positions);
    forall id | id in positions
      ensures id < idSpace
    {
      assert id != 0 ==> id in positions - {0};
    }
  }

  lemma OneMoreId(positions: map<nat, nat>)
    requires 0 in positions
    ensures |positions| == |positions - {0}| + 1
  {
    assert positions.Keys == (positions - {0}).Keys + {0};
    assert |positions.Keys| == |positions| && |(positions - {0}).Keys| == |positions - {0}|;
  }

  /** An access to id 0 leads to a state of this kind if and only if it is tidy. */
  lemma SpentAgain(idSpace: nat, keys: map<Key, nat>, zk: Key, m: map<Key, Data>, w: World, w': World)
    requires Good(idSpace, Pair(w, keys - {zk}), m) && zk in keys && keys[zk] == 0 && zk !in m
    requires 0 in w'.positions && ValidLeaf(w'.L, w'.positions[0])
    requires WithoutZero(w').Placed() && WithoutZero(w').positions == w.positions
    requires forall id, d :: WithoutZero(w').Stored(id, d) <==> w.Stored(id, d)
    ensures Spent(idSpace, Pair(w', keys), zk, m) <==> OneCopy(WithoutZero(w').tree, WithoutZero(w').stash)
  {
    hide OneCopy, World.Placed, World.Stored, WithoutZero;
    GoodFacts(idSpace, Pair(w, keys - {zk}), m);
    SameStored(w, keys - {zk}, m, WithoutZero(w'));
  }

  lemma SameStored(w: World, keys: map<Key, nat>, m: map<Key, Data>, w': World)
    requires Represents(w, keys, m) && w'.Placed() && w'.positions == w.positions
    requires forall id, d :: w'.Stored(id, d) <==> w.Stored(id, d)
    ensures Represents(w', keys, m) <==> OneCopy(w'.tree, w'.stash)
  {
    hide World.Stored, OneCopy, World.OnOwnPath;
  }

  /** A put of a new key when 0 is the only id left: the key gets it. All other pairs are as before, the
      value is held if and only if no slot within reach is free when the scan is over, and the state is
      as described by `Spent` if and only if the scan has placed no block twice. */
  lemma LastPut(idSpace: nat, p: Pair, m: map<Key, Data>, key: Key, value: Data, x: Choice, p': Pair)
    requires Good(idSpace, p, m) && PutStep(idSpace, p, key, value, x, p')
    requires key !in p.keys && |m| == idSpace - 1
    ensures x.id == 0 && p'.keys == p.keys[key := 0] && |p'.world.positions| == idSpace
    ensures Spent(idSpace, p', key, m) <==> TidyStep(p, PutRequest(key, value), x)
    ensures forall id, d :: WithoutZero(p'.world).Stored(id, d) <==> p.world.Stored(id, d)
    ensures var w := Prepared(p, key, x);
            Zeroed(w) && CanAccess(w, Write, Some(value), x) &&
            Held(p'.world.stash) ==
                (if NoneFree(w.Traversing(0), LeftOver(w, x).branch, x.newLeaf) then Some(value) else None)
  {
    hide *;
    GoodFacts(idSpace, p, m);
    PutStepFacts(idSpace, p, key, value, x, p');
    NewId(idSpace, p, key, x);
    PreparedNew(p, key, x);
    TidyPut(p, key, value, x);
    var w := Prepared(p, key, x);
    NewZero(p.world, x.mapLeaf);
    ZeroValueOfPut(value);
    ZeroAccess(w, Write, Some(value), x);
    assert p.keys[key := 0] - {key} == p.keys;
    SpentAgain(idSpace, p'.keys, key, m, p.world, p'.world);
    NewZeroSize(p.world.positions, x.mapLeaf, x.newLeaf);
  }

  lemma TidyPut(p: Pair, key: Key, value: Data, x: Choice)
    ensures TidyStep(p, PutRequest(key, value), x) <==> Tidy(Prepared(p, key, x), x)
  {
  }

  lemma ZeroValueOfPut(value: Data)
    ensures forall held :: ZeroValue(Write, Some(value), held) == value
  {
  }

  lemma NewZeroSize(positions: map<nat, nat>, leaf: nat, newLeaf: nat)
    requires 0 !in positions
    ensures |positions[0 := leaf][0 := newLeaf]| == |positions| + 1
  {
    var after := positions[0 := leaf][0 := newLeaf];
    OneMoreId(after);
    assert after - {0} == positions;
  }

  /** Id 0 is newly mapped. */
  lemma NewZero(w: World, leaf: nat)
    requires w.Consistent() && 0 !in w.positions && ValidLeaf(w.L, leaf)
    ensures var w' := w.(positions := w.positions[0 := leaf]);
            Zeroed(w') && WithoutZero(w') == w && Held(w'.stash) == None
  {
    assert w.positions[0 := leaf] - {0} == w.positions;
    assert w.stash - {0} == w.stash;
  }

  /** A get of that key: it hands back what is held, else its own zeroed buffer, and that is held
      afterwards if and only if no slot within reach is free when the scan is over. */
  lemma GetOfZero(idSpace: nat, p: Pair, zk: Key, m: map<Key, Data>, zeros: Data, x: Choice, result: Option<Data>,
      p': Pair)
    requires Spent(idSpace, p, zk, m) && GetStep(p, zk, zeros, x, result, p')
    ensures x.id == 0 && Zeroed(p.world) && CanAccess(p.world, Read, Some(zeros), x)
    ensures result == Some(Held(p.world.stash).GetOr(zeros))
    ensures Held(p'.world.stash) ==
            (if NoneFree(p.world.Traversing(0), LeftOver(p.world, x).branch, x.newLeaf) then result else None)
    ensures Spent(idSpace, p', zk, m) <==> Tidy(p.world, x)
  {
    hide *;
    SpentFacts(idSpace, p, zk, m);
    GetStepFacts(p, zk, zeros, x, result, p');
    ZeroValueOfGet(zeros, Held(p.world.stash));
    ZeroAccess(p.world, Read, Some(zeros), x);
    WithoutZeroIs(p.world);
    SpentAgain(idSpace, p.keys, zk, m, WithoutZero(p.world), p'.world);
  }

  lemma GetStepFacts(p: Pair, key: Key, zeros: Data, x: Choice, result: Option<Data>, p': Pair)
    requires GetStep(p, key, zeros, x, result, p') && key in p.keys
    ensures x.id == p.keys[key] && CanAccess(p.world, Read, Some(zeros), x)
    ensures p' == Pair(Accessed(p.world, Read, Some(zeros), x), p.keys)
    ensures result == Traversed(p.world, Read, Some(zeros), x).buffer
  {
    hide CanAccess, Accessed, Traversed;
  }

  lemma ZeroValueOfGet(zeros: Data, held: Option<Data>)
    ensures ZeroValue(Read, Some(zeros), held) == held.GetOr(zeros)
  {
  }

  /** Another put of that key: the new value takes the place of what is held, or is lost as well. */
  lemma PutOfZero(idSpace: nat, p: Pair, zk: Key, m: map<Key, Data>, value: Data, x: Choice, p': Pair)
    requires Spent(idSpace, p, zk, m) && PutStep(idSpace, p, zk, value, x, p')
    ensures x.id == 0 && Zeroed(p.world) && CanAccess(p.world, Write, Some(value), x)
    ensures Held(p'.world.stash) ==
            (if NoneFree(p.world.Traversing(0), LeftOver(p.world, x).branch, x.newLeaf) then Some(value) else None)
    ensures Spent(idSpace, p', zk, m) <==> Tidy(p.world, x)
  {
    hide *;
    SpentFacts(idSpace, p, zk, m);
    PutStepFacts(idSpace, p, zk, value, x, p');
    PreparedKnown(idSpace, p, zk, x);
    ZeroValueOfPut(value);
    ZeroAccess(p.world, Write, Some(value), x);
    WithoutZeroIs(p.world);
    assert p.keys[zk := 0] == p.keys;
    SpentAgain(idSpace, p.keys, zk, m, WithoutZero(p.world), p'.world);
  }

  lemma PreparedKnown(idSpace: nat, p: Pair, key: Key, x: Choice)
    requires key in p.keys && IdFor(p, idSpace, key, x.id)
    ensures Prepared(p, key, x) == p.world && x.id == p.keys[key]
  {
  }

  /** A clear of that key reads its null buffer if and only if nothing is held, whatever the draws and the
      enumeration. */
  lemma ClearOfZeroReadsNullIff(idSpace: nat, p: Pair, zk: Key, m: map<Key, Data>, order: seq<nat>)
    requires Spent(idSpace, p, zk, m)
    ensures var w := p.world;
            Shaped(w.L, w.B, w.tree) && 0 in w.positions && ValidLeaf(w.L, w.positions[0]) &&
            (ScanOrder(w.Traversing(0), w.Fetched(w.positions[0]), order) ==>
               (ReadsNull(w.Traversing(0), w.Fetched(w.positions[0]), Operation.Clear, order) <==> 0 !in w.stash))
  {
    SpentFacts(idSpace, p, zk, m);
    ZeroReady(p.world);
    var w := p.world;
    hide Ready, ScanOrder, ReadsNull, Good;
    if ScanOrder(w.Traversing(0), w.Fetched(w.positions[0]), order) {
      ClearReadsNullIff(w.Traversing(0), w.Fetched(w.positions[0]), order);
    }
  }

  /** When something is held, the clear gives the id back: the state is good again if and only if the scan
      has placed no block twice. */
  lemma ClearOfZero(idSpace: nat, p: Pair, zk: Key, m: map<Key, Data>, x: Choice, p': Pair)
    requires Spent(idSpace, p, zk, m) && ClearStep(p, zk, x, p')
    ensures 0 in p.world.stash && (Good(idSpace, p', m) <==> Tidy(p.world, x))
  {
    hide *;
    SpentFacts(idSpace, p, zk, m);
    ClearStepFacts(p, zk, x, p');
    ZeroAccess(p.world, Operation.Clear, None, x);
    HeldByClear(idSpace, p, zk, m, x);
    WithoutZeroIs(p.world);
    ClearedWorld(Accessed(p.world, Operation.Clear, None, x));
    var q := Pair(WithoutZero(p.world), p.keys - {zk});
    GoodFacts(idSpace, q, m);
    SameStored(q.world, q.keys, m, p'.world);
    GoodAgain(idSpace, p', m, q.world.positions);
  }

  lemma HeldByClear(idSpace: nat, p: Pair, zk: Key, m: map<Key, Data>, x: Choice)
    requires Spent(idSpace, p, zk, m) && x.id == 0 && CanAccess(p.world, Operation.Clear, None, x)
    ensures 0 in p.world.stash
  {
    hide Spent, Traverse;
    ClearOfZeroReadsNullIff(idSpace, p, zk, m, x.order);
  }

  lemma ClearStepFacts(p: Pair, key: Key, x: Choice, p': Pair)
    requires ClearStep(p, key, x, p') && key in p.keys
    ensures x.id == p.keys[key] && CanAccess(p.world, Operation.Clear, None, x)
    ensures var w := Accessed(p.world, Operation.Clear, None, x);
            p' == Pair(w.(positions := w.positions - {x.id}), p.keys - {key})
  {
    hide CanAccess, Accessed;
  }

  lemma ClearedWorld(w: World)
    requires Held(w.stash) == None
    ensures w.(positions := w.positions - {0}) == WithoutZero(w)
  {
    assert w.stash - {0} == w.stash;
  }

  /** What an access to another block finds when something may be held under id 0: a branch and a stash
      that satisfy all the traversal relies on, but for that entry. `ZeroId.LaterScanEndsIff` says when
      its scan ends. */
  lemma OthersReady(idSpace: nat, p: Pair, zk: Key, m: map<Key, Data>, id: nat)
    requires Spent(idSpace, p, zk, m) && id in p.world.positions && id != 0
    ensures var w := p.world;
            && Shaped(w.L, w.B, w.tree) && ValidLeaf(w.L, w.positions[id])
            && Ready(w.Traversing(id), Emptied(w).Fetched(w.positions[id]))
            && WithZero(Emptied(w).Fetched(w.positions[id]), Held(w.stash)) == w.Fetched(w.positions[id])
  {
    hide *;
    var w := p.world;
    SpentFacts(idSpace, p, zk, m);
    EmptiedConsistent(w);
    EmptiedIs(w);
    FetchedIsReady(Emptied(w), id);
    ConsistentFacts(Emptied(w), id);
    EmptiedFetched(w, id);
  }

  lemma ConsistentFacts(w: World, id: nat)
    requires w.Consistent() && id in w.positions
    ensures Shaped(w.L, w.B, w.tree) && ValidLeaf(w.L, w.positions[id])
  {
  }

  lemma EmptiedFetched(w: World, id: nat)
    requires id in w.positions && Shaped(w.L, w.B, w.tree) && ValidLeaf(w.L, w.positions[id])
    ensures Emptied(w).Traversing(id) == w.Traversing(id)
    ensures WithZero(Emptied(w).Fetched(w.positions[id]), Held(w.stash)) == w.Fetched(w.positions[id])
  {
    hide Shaped, ValidLeaf, Fetch;
    assert 0 in w.stash ==> (w.stash - {0})[0 := w.stash[0]] == w.stash;
    assert 0 !in w.stash ==> w.stash - {0} == w.stash;
  }

  // ----- The key after it -----

  /** When all ids are mapped, a new key gets id 1, which another key has. Both keys have the block from
      then on. Every other pair is as before; of the pairs of id 1 the new value is stored, and the old one
      stays behind if and only if it was in a bucket off the path to the new leaf. */
  lemma SharedPut(idSpace: nat, p: Pair, zk: Key, m: map<Key, Data>, key: Key, value: Data, x: Choice, p': Pair)
    requires Spent(idSpace, p, zk, m) && |p.world.positions| == idSpace && 0 !in p.world.stash
    requires key !in p.keys && PutStep(idSpace, p, key, value, x, p')
    ensures x.id == 1 && p'.keys[key] == 1
    ensures exists k :: k in p.keys && k != key && p.keys[k] == 1 && p'.keys[k] == 1
    ensures forall id, d :: p'.world.Stored(id, d) <==>
              if id == 1 then d == value || p.world.OffPath(x.mapLeaf, 1, d) else p.world.Stored(id, d)
  {
    hide *;
    SpentFacts(idSpace, p, zk, m);
    GoodFacts(idSpace, Pair(WithoutZero(p.world), p.keys - {zk}), m);
    PutStepFacts(idSpace, p, key, value, x, p');
    TakenId(idSpace, p, key, x);
    PreparedNew(p, key, x);
    var q := Pair(WithoutZero(p.world), p.keys - {zk});
    GoodFacts(idSpace, q, m);
    WithoutZeroIs(p.world);
    var k := KeyOf(q, 1, m);
    assert k in p.keys && p.keys[k] == 1;
    assert k in p'.keys && p'.keys[k] == 1;
    EmptiedConsistent(p.world);
    NothingHeld(p.world);
    SharedAccess(p.world, 1, x.mapLeaf, value, x);
  }

  lemma NothingHeld(w: World)
    requires 0 !in w.stash
    ensures Emptied(w) == w
  {
    assert w.stash - {0} == w.stash;
  }

  lemma TakenId(idSpace: nat, p: Pair, key: Key, x: Choice)
    requires idSpace > 1 && IdsBelow(p.world.positions, idSpace) && |p.world.positions| == idSpace
    requires key !in p.keys && IdFor(p, idSpace, key, x.id)
    ensures x.id == 1 && 1 in p.world.positions
  {
    hide Wrap, Searched, IdsBelow;
    var i: nat :| Searched(p.world.positions, idSpace, i) && x.id == Wrap(i, idSpace);
    FreshIdIff(p.world.positions, idSpace, i);
  }

  lemma KeyOf(q: Pair, id: nat, m: map<Key, Data>) returns (k: Key)
    requires Represents(q.world, q.keys, m) && id in q.world.positions
    ensures k in q.keys && q.keys[k] == id
  {
    hide World.Consistent;
    k :| k in q.keys && q.keys[k] == id;
  }

  /** An access to a block whose leaf has just been replaced by another one, without its having been
      moved: only the copy on the fetched branch or in the stash is updated. */
  lemma SharedAccess(w0: World, id: nat, leaf: nat, value: Data, x: Choice)
    requires w0.Consistent() && id in w0.positions && id != 0 && ValidLeaf(w0.L, leaf) && x.id == id
    requires CanAccess(w0.(positions := w0.positions[id := leaf]), Write, Some(value), x)
    ensures var w' := Accessed(w0.(positions := w0.positions[id := leaf]), Write, Some(value), x);
            forall i, d :: w'.Stored(i, d) <==>
              if i == id then d == value || w0.OffPath(leaf, id, d) else w0.Stored(i, d)
  {
    var w := w0.(positions := w0.positions[id := leaf]);
    RemapReady(w0, id, leaf);
    AccessedIs(w, Write, Some(value), x);
    var c, st, r := w.Traversing(id), w.Fetched(leaf), Traversed(w, Write, Some(value), x);
    CanAccessIs(w, Write, Some(value), x);
    TraverseCorrect(c, st, Write, Some(value), x.newLeaf, x.order);
    UpdatedByWrite(c, st, value, r);
    RewrittenIs(w, leaf, r.st, r.positions);
    hide *;
    forall i, d
      ensures w.Rewritten(leaf, r.st, r.positions).Stored(i, d) <==>
              if i == id then d == value || w0.OffPath(leaf, id, d) else w0.Stored(i, d)
    {
      RewrittenStored(w, leaf, r.st, r.positions, i, d);
      StoredSplits(w, leaf, i, d);
      StoredIgnoresPositions(w0, w.positions, i, d);
      OffPathIgnoresPositions(w0, w.positions, leaf, i, d);
    }
  }

  lemma CanAccessIs(w: World, op: Operation, buffer: Option<Data>, x: Choice)
    requires CanAccess(w, op, buffer, x)
    ensures Shaped(w.L, w.B, w.tree) && x.id in w.positions && ValidLeaf(w.L, w.positions[x.id])
    ensures ValidLeaf(w.L, x.newLeaf)
    ensures var c, st := w.Traversing(x.id), w.Fetched(w.positions[x.id]);
            && c.requested == x.id && ScanOrder(c, st, x.order) && !ReadsNull(c, st, op, x.order)
            && Traversed(w, op, buffer, x) == Traverse(c, st, op, buffer, x.newLeaf, x.order)
  {
    hide Traverse, ScanOrder, ReadsNull;
  }

  lemma UpdatedByWrite(c: Context, st: Store, value: Data, r: Result)
    requires Achieves(c, st, Write, Some(value), r)
    ensures forall id, d :: Holds(r.st, id, d) <==> if id == c.requested then d == value else Holds(st, id, d)
  {
    hide Holds, Fitting, Separate;
  }

  lemma OffPathIgnoresPositions(w: World, positions: map<nat, nat>, leaf: nat, id: nat, data: Data)
    ensures w.(positions := positions).OffPath(leaf, id, data) <==> w.OffPath(leaf, id, data)
  {
  }

  /** A block is always deep enough on the branch that is fetched for it. */
  lemma RemapReady(w0: World, id: nat, leaf: nat)
    requires w0.Consistent() && id in w0.positions && ValidLeaf(w0.L, leaf)
    ensures var w := w0.(positions := w0.positions[id := leaf]);
            Shaped(w.L, w.B, w.tree) && Ready(w.Traversing(id), w.Fetched(leaf))
  {
    var w := w0.(positions := w0.positions[id := leaf]);
    var br := Fetch(w0.L, w0.B, w0.tree, leaf);
    FetchedUnique(w0, leaf);
    MeetBounds(w0.L, leaf, leaf);
    hide OneCopy, Unique, Fetch, Meet, Shaped, ValidLeaf;
    forall s | 0 <= s < |br| && br[s].Full?
      ensures FitsAt(w.Traversing(id), br[s].id, s)
    {
      FetchedFits(w0, leaf, s);
    }
  }

  // ----- A run that uses up the ids -----

  lemma {:induction false} EnumerationExists(keys: set<nat>) returns (order: seq<nat>)
    ensures Enumerates(order, keys)
  {
    if keys == {} {
      order := [];
    } else {
      var k :| k in keys;
      order := EnumerationExists(keys - {k});
      EnumerateOneMore(order, keys - {k}, k);
      order := order + [k];
      assert keys - {k} + {k} == keys;
    }
  }

  /** One slot per bucket, all free, and nothing known. */
  ghost function EmptyPair(L: nat): Pair {
    Pair(World(L, 1, seq(Pow2(L), n => if n == 0 then [] else [Free]), map[], map[]), map[])
  }

  /** All blocks are mapped to leaf 1. */
  ghost predicate OnLeafOne(L: nat, w: World) {
    w.L == L && w.B == 1 && forall id :: id in w.positions ==> w.positions[id] == 1
  }

  /** A new key can be put whatever the state, with the draws that we choose. */
  lemma SomePut(idSpace: nat, p: Pair, m: map<Key, Data>, key: Key, value: Data, leaf: nat)
    returns (x: Choice, p': Pair)
    requires Good(idSpace, p, m) && key !in p.keys && ValidLeaf(p.world.L, leaf)
    ensures x.mapLeaf == x.newLeaf == leaf && PutStep(idSpace, p, key, value, x, p')
    ensures p'.world.L == p.world.L && p'.world.B == p.world.B
    ensures p'.keys == p.keys[key := x.id] && p'.world.positions == p.world.positions[x.id := leaf]
  {
    hide *;
    GoodFacts(idSpace, p, m);
    var i := FirstSearched(p.world.positions, idSpace);
    x := Choice(Wrap(i, idSpace), leaf, leaf, []);
    IdForSearched(idSpace, p, key, i);
    NewId(idSpace, p, key, x);
    MapNewId(p.world, x.id, leaf);
    var w := p.world.(positions := p.world.positions[x.id := leaf]);
    FetchedIsReady(w, x.id);
    ConsistentFacts(w, x.id);
    var order := SomeOrder(w.Traversing(x.id), w.Fetched(leaf));
    x := x.(order := order);
    CanPut(w, value, x);
    AccessedIs(w, Write, Some(value), x);
    TraversedSize(w, Write, Some(value), x);
    PreparedNew(p, key, x);
    p' := Pair(Accessed(w, Write, Some(value), x), p.keys[key := x.id]);
    PutStepIs(idSpace, p, key, value, x, p');
    assert w.positions[x.id := leaf] == w.positions;
  }

  lemma FirstSearched(positions: map<nat, nat>, idSpace: nat) returns (i: nat)
    requires idSpace > 1
    ensures Searched(positions, idSpace, i)
  {
    i := SearchFrom(positions, idSpace, 1);
  }

  lemma IdForSearched(idSpace: nat, p: Pair, key: Key, i: nat)
    requires idSpace > 1 && key !in p.keys && Searched(p.world.positions, idSpace, i)
    ensures IdFor(p, idSpace, key, Wrap(i, idSpace))
  {
    hide Searched, Wrap;
  }

  lemma SomeOrder(c: Context, st: Store) returns (order: seq<nat>)
    requires Ready(c, st)
    ensures ScanOrder(c, st, order)
  {
    order := [];
    if Walk(c, st, 0).Missing? {
      WalkFromStart(c, st);
      order := EnumerationExists(Walk(c, st, 0).st.stash.Keys);
      NoZeroAhead(c, Walk(c, st, 0).st, order);
    }
  }

  lemma CanPut(w: World, value: Data, x: Choice)
    requires Shaped(w.L, w.B, w.tree) && x.id in w.positions && ValidLeaf(w.L, w.positions[x.id])
    requires ValidLeaf(w.L, x.newLeaf)
    requires Ready(w.Traversing(x.id), w.Fetched(w.positions[x.id]))
    requires ScanOrder(w.Traversing(x.id), w.Fetched(w.positions[x.id]), x.order)
    ensures CanAccess(w, Write, Some(value), x)
  {
    hide ScanOrder, Fitting, Unique;
  }

  lemma PutStepIs(idSpace: nat, p: Pair, key: Key, value: Data, x: Choice, p': Pair)
    requires IdFor(p, idSpace, key, x.id) && ValidLeaf(p.world.L, x.mapLeaf) && Prepared(p, key, x).L == p.world.L
    requires CanAccess(Prepared(p, key, x), Write, Some(value), x)
    requires p' == Pair(Accessed(Prepared(p, key, x), Write, Some(value), x), p.keys[key := x.id])
    ensures PutStep(idSpace, p, key, value, x, p')
  {
    hide CanAccess, Accessed, IdFor, Prepared;
  }

  /** As many puts of new keys as there are ids besides 0, with all draws on leaf 1. */
  lemma {:induction false} PutsOnLeafOne(L: nat, idSpace: nat, keys: seq<Key>, value: Data, n: nat)
    returns (run: Run, m: map<Key, Data>)
    requires ValidLeaf(L, 1) && n < idSpace && 1 < idSpace && n <= |keys|
    requires forall i, j :: 0 <= i < j < |keys| ==> keys[i] != keys[j]
    ensures run.Steps(idSpace) && |run.requests| == n && |run.states| == n + 1 && run.states[0] == EmptyPair(L)
    ensures forall i :: 0 <= i < n ==> run.requests[i] == PutRequest(keys[i], value)
    ensures Good(idSpace, run.states[n], m) && |m| == n && forall k :: k in m <==> k in keys[..n]
    ensures OnLeafOne(L, run.states[n].world)
    decreases n
  {
    hide *;
    if n == 0 {
      run, m := Run([EmptyPair(L)], [], [], []), map[];
      EmptyPairIsGood(L, idSpace);
      NoSteps(idSpace, run);
    } else {
      var before, m0 := PutsOnLeafOne(L, idSpace, keys, value, n - 1);
      NewAmong(keys, n);
      run, m := OneMorePut(L, idSpace, before, m0, keys[n - 1], value);
    }
  }

  lemma NewAmong(keys: seq<Key>, n: nat)
    requires 0 < n <= |keys| && forall i, j :: 0 <= i < j < |keys| ==> keys[i] != keys[j]
    ensures keys[n - 1] !in keys[..n - 1] && keys[..n] == keys[..n - 1] + [keys[n - 1]]
  {
  }

  lemma OneMorePut(L: nat, idSpace: nat, before: Run, m0: map<Key, Data>, key: Key, value: Data)
    returns (run: Run, m: map<Key, Data>)
    requires ValidLeaf(L, 1) && before.Steps(idSpace) && |before.states| == |before.requests| + 1
    requires Good(idSpace, before.states[|before.requests|], m0) && OnLeafOne(L, before.states[|before.requests|].world)
    requires key !in m0 && |m0| < idSpace - 1
    ensures m == m0[key := value] && |m| == |m0| + 1
    ensures run.Steps(idSpace) && run.requests == before.requests + [PutRequest(key, value)]
    ensures |run.states| == |run.requests| + 1 && run.states[0] == before.states[0]
    ensures Good(idSpace, run.states[|run.requests|], m) && OnLeafOne(L, run.states[|run.requests|].world)
  {
    hide *;
    var p := before.states[|before.requests|];
    GoodFacts(idSpace, p, m0);
    LeafOneFacts(L, p.world);
    var x, p' := SomePut(idSpace, p, m0, key, value, 1);
    PutCorrect(idSpace, p, m0, key, value, x, p');
    RoomAndTidy(idSpace, p, m0, key, value, x);
    m := m0[key := value];
    MapGrowsByOne(m0, key, value);
    StillOnLeafOne(L, p.world, x.id, p'.world);
    run := Extended(before, PutRequest(key, value), x, p');
    OneMoreStep(idSpace, before, key, value, x, p');
  }

  lemma EmptyPairIsGood(L: nat, idSpace: nat)
    requires ValidLeaf(L, 1) && idSpace > 1
    ensures Good(idSpace, EmptyPair(L), map[]) && OnLeafOne(L, EmptyPair(L).world)
  {
    hide Good;
    EmptyIsGood(idSpace, EmptyPair(L).world);
  }

  lemma NoSteps(idSpace: nat, run: Run)
    requires |run.states| == 1 && run.requests == [] && run.choices == [] && run.responses == []
    ensures run.Steps(idSpace)
  {
  }

  lemma StepsFacts(idSpace: nat, run: Run)
    requires run.Steps(idSpace)
    ensures |run.states| == |run.requests| + 1 && |run.choices| == |run.responses| == |run.requests|
  {
  }

  lemma LeafOneFacts(L: nat, w: World)
    requires OnLeafOne(L, w)
    ensures w.L == L && w.B == 1
  {
  }

  lemma MapGrowsByOne(m: map<Key, Data>, k: Key, v: Data)
    requires k !in m
    ensures |m[k := v]| == |m| + 1
  {
    assert m[k := v].Keys == m.Keys + {k};
    assert |m[k := v]| == |m[k := v].Keys| && |m| == |m.Keys|;
  }

  lemma RoomAndTidy(idSpace: nat, p: Pair, m: map<Key, Data>, key: Key, value: Data, x: Choice)
    requires p.world.B == 1
    ensures TidyStep(p, PutRequest(key, value), x) && Update(m, PutRequest(key, value)) == m[key := value]
    ensures |m| < idSpace - 1 ==> HasRoom(idSpace, m, PutRequest(key, value))
  {
    hide Tidy;
    OneSlotIsTidy(Prepared(p, key, x), x);
  }

  lemma StillOnLeafOne(L: nat, w: World, id: nat, w': World)
    requires OnLeafOne(L, w) && w'.L == w.L && w'.B == w.B && w'.positions == w.positions[id := 1]
    ensures OnLeafOne(L, w')
  {
  }

  ghost function Extended(run: Run, r: Request, x: Choice, p': Pair): Run {
    Run(run.states + [p'], run.requests + [r], run.choices + [x], run.responses + [Response(0, [])])
  }

  lemma OneMoreStep(idSpace: nat, run: Run, key: Key, value: Data, x: Choice, p': Pair)
    requires run.Steps(idSpace) && PutStep(idSpace, run.states[|run.requests|], key, value, x, p')
    ensures var run' := Extended(run, PutRequest(key, value), x, p');
            && run'.Steps(idSpace) && run'.requests == run.requests + [PutRequest(key, value)]
            && |run'.states| == |run.states| + 1
            && run'.states[..|run.states|] == run.states && run'.states[|run.states|] == p' &&
               run'.states[0] == run.states[0]
  {
    hide PutStep;
  }

  /** From the first connection on: as many puts of new keys as there are ids. The last key gets id 0 and
      its value is lost; a clear of that key reads its null buffer, and the put of one more key gets id 1
      (`SharedPut`). */
  lemma IdsRunOut(L: nat, idSpace: nat, keys: seq<Key>, value: Data) returns (run: Run, m: map<Key, Data>)
    requires L >= 2 && 1 < idSpace == |keys| && forall i, j :: 0 <= i < j < |keys| ==> keys[i] != keys[j]
    ensures run.Steps(idSpace) && run.states[0] == EmptyPair(L) && |run.requests| == idSpace
    ensures forall i :: 0 <= i < idSpace ==> run.requests[i] == PutRequest(keys[i], value)
    ensures var p, zk := run.states[idSpace], keys[idSpace - 1];
            && Spent(idSpace, p, zk, m) && |p.world.positions| == idSpace && 0 !in p.world.stash
            && forall x, p' :: !ClearStep(p, zk, x, p')
  {
    hide *;
    LeafOneValid(L);
    var before, m0 := PutsOnLeafOne(L, idSpace, keys, value, idSpace - 1);
    m := m0;
    StepsFacts(idSpace, before);
    var p, zk := before.states[idSpace - 1], keys[idSpace - 1];
    GoodFacts(idSpace, p, m);
    LeafOneFacts(L, p.world);
    assert zk !in keys[..idSpace - 1];
    var x, p' := SomePut(idSpace, p, m, zk, value, Pow2(L - 1));
    LastPutIsLost(L, idSpace, p, m, zk, value, x, p');
    NoClear(idSpace, p', zk, m);
    run := Extended(before, PutRequest(zk, value), x, p');
    OneMoreStep(idSpace, before, zk, value, x, p');
  }

  /** When all other blocks are on leaf 1, the value put under id 0 for the last leaf is lost. */
  lemma LastPutIsLost(L: nat, idSpace: nat, p: Pair, m: map<Key, Data>, key: Key, value: Data, x: Choice, p': Pair)
    requires L >= 2 && OnLeafOne(L, p.world) && Good(idSpace, p, m) && PutStep(idSpace, p, key, value, x, p')
    requires key !in p.keys && |m| == idSpace - 1 && x.mapLeaf == x.newLeaf == Pow2(L - 1)
    ensures Spent(idSpace, p', key, m) && |p'.world.positions| == idSpace && 0 !in p'.world.stash
  {
    hide *;
    LeafOneFacts(L, p.world);
    LastPut(idSpace, p, m, key, value, x, p');
    RoomAndTidy(idSpace, p, m, key, value, x);
    PreparedNew(p, key, x);
    OthersOnLeafOne(L, p.world, x.newLeaf);
    FarIsFree(L, Prepared(p, key, x), value, x);
    NotHeld(p'.world.stash);
  }

  lemma NotHeld(stash: map<nat, Data>)
    ensures Held(stash) == None <==> 0 !in stash
  {
  }

  lemma NoClear(idSpace: nat, p: Pair, zk: Key, m: map<Key, Data>)
    requires Spent(idSpace, p, zk, m) && 0 !in p.world.stash
    ensures forall x, p' :: !ClearStep(p, zk, x, p')
  {
    forall x, p' | ClearStep(p, zk, x, p')
      ensures false
    {
      ClearOfZero(idSpace, p, zk, m, x, p');
    }
  }

  lemma LeafOneValid(L: nat)
    requires L >= 2
    ensures ValidLeaf(L, 1) && ValidLeaf(L, Pow2(L - 1))
  {
    Pow2Monotone(0, L - 1);
  }

  /** The paths to the first and to the last leaf have only the root in common. */
  lemma FarApart(L: nat)
    requires L >= 2
    ensures ValidLeaf(L, 1) && ValidLeaf(L, Pow2(L - 1)) && Meet(L, Pow2(L - 1), 1) == 0
    ensures Meet(L, Pow2(L - 1), Pow2(L - 1)) == L - 1
  {
    LeafOneValid(L);
    MeetBounds(L, Pow2(L - 1), Pow2(L - 1));
    ShrOfLast(L - 2);
    ShrOfZero(L - 2);
    MeetFromSpec(Pow2(L - 1) - 1, 0, L - 1, 1);
  }

  lemma {:induction false} ShrOfLast(n: nat)
    ensures Shr(Pow2(n + 1) - 1, n) == 1
  {
    if n > 0 {
      assert Pow2(n + 1) == 2 * Pow2(n);
      assert (Pow2(n + 1) - 1) / 2 == Pow2(n) - 1;
      ShrOfLast(n - 1);
    }
  }

  lemma {:induction false} ShrOfZero(n: nat)
    ensures Shr(0, n) == 0
  {
    if n > 0 {
      ShrOfZero(n - 1);
    }
  }

  lemma OthersOnLeafOne(L: nat, w: World, leaf: nat)
    requires OnLeafOne(L, w)
    ensures var positions := w.positions[0 := leaf]; forall id :: id in positions && id != 0 ==> positions[id] == 1
  {
  }

  /** With all blocks on leaf 1, the leaf bucket of the last path stays free. */
  lemma FarIsFree(L: nat, w: World, value: Data, x: Choice)
    requires L >= 2 && w.L == L && w.B == 1 && Zeroed(w) && x.id == 0 && CanAccess(w, Write, Some(value), x)
    requires w.positions[0] == x.newLeaf == Pow2(L - 1)
    requires forall id :: id in w.positions && id != 0 ==> w.positions[id] == 1
    ensures Shaped(w.L, w.B, w.tree) && ScanOrder(w.Traversing(0), w.Fetched(w.positions[0]), x.order)
    ensures !NoneFree(w.Traversing(0), LeftOver(w, x).branch, x.newLeaf)
  {
    hide *;
    ZeroTraversal(w, Write, Some(value), x);
    LeftOverFacts(w, x);
    FarApart(L);
    StartIsProduct(1, L);
    FreeAtLeaf(w.Traversing(0), LeftOver(w, x));
  }

  lemma FreeAtLeaf(c: Context, rest: Store)
    requires c.L >= 2 && c.B == 1 && Fitting(c, rest) && Start(c.B, c.L) == c.L && c.requested == 0
    requires ValidLeaf(c.L, 1) && ValidLeaf(c.L, c.leaf) && Meet(c.L, c.leaf, 1) == 0
    requires Meet(c.L, c.leaf, c.leaf) == c.L - 1
    requires forall id :: id in c.positions && id != 0 ==> c.positions[id] == 1
    ensures !NoneFree(c, rest.branch, c.leaf)
  {
    hide Meet, ValidLeaf;
    var s := c.L - 1;
    assert rest.branch[s].Full? ==> FitsAt(c, rest.branch[s].id, s);
    assert Reach(c, c.leaf) == c.L;
  }
}
