/** The server's bucket tree as a value, the two operations on one of its paths, and the main
    invariant that ties tree, stash and position map together. */
module Tree {
  import opened Arithmetic
  import opened Paths
  import opened Wrappers
  import opened Bytes
  import opened Slots
  import opened BranchLoop
  import opened Replacement
  import opened Traversal

  /** Bucket `n` of the heap is `t[n]`; index 0 is not used. The server keeps sealed blocks, the
      main invariant speaks of what they open to. */
  type Buckets<T> = seq<seq<T>>

  ghost predicate Shaped<T>(L: nat, B: nat, t: Buckets<T>) {
    L >= 1 && |t| == Pow2(L) && forall n :: 1 <= n < |t| ==> |t[n]| == B
  }

  ghost predicate OnPath(L: nat, leaf: nat, n: nat) {
    ValidLeaf(L, leaf) && exists k: nat :: k < L && Node(L, leaf, k) == n
  }

  /** The first `k` buckets of the path, one after the other. */
  ghost function FetchUpTo<T>(L: nat, B: nat, t: Buckets<T>, leaf: nat, k: nat): (br: seq<T>)
    requires Shaped(L, B, t) && ValidLeaf(L, leaf) && k <= L
    ensures |br| == Start(B, k)
    decreases k
  {
    if k == 0 then []
    else
      NodeBounds(L, leaf, k - 1);
      FetchUpTo(L, B, t, leaf, k - 1) + t[Node(L, leaf, k - 1)]
  }

  ghost function Fetch<T>(L: nat, B: nat, t: Buckets<T>, leaf: nat): (br: seq<T>)
    requires Shaped(L, B, t) && ValidLeaf(L, leaf)
    ensures |br| == Start(B, L)
  {
    FetchUpTo(L, B, t, leaf, L)
  }

  /** The tree after the first `k` buckets of the path have been overwritten from `br`. */
  ghost function WriteUpTo<T>(L: nat, B: nat, t: Buckets<T>, leaf: nat, br: seq<T>, k: nat): (t': Buckets<T>)
    requires Shaped(L, B, t) && ValidLeaf(L, leaf) && |br| == Start(B, L) && k <= L
    ensures Shaped(L, B, t')
    decreases k
  {
    if k == 0 then t
    else
      NodeBounds(L, leaf, k - 1);
      StartMonotone(B, k, L);
      WriteUpTo(L, B, t, leaf, br, k - 1)[Node(L, leaf, k - 1) := br[Start(B, k - 1)..Start(B, k)]]
  }

  ghost function WriteBack<T>(L: nat, B: nat, t: Buckets<T>, leaf: nat, br: seq<T>): (t': Buckets<T>)
    requires Shaped(L, B, t) && ValidLeaf(L, leaf) && |br| == Start(B, L)
    ensures Shaped(L, B, t')
  {
    WriteUpTo(L, B, t, leaf, br, L)
  }

  lemma {:induction false} FetchAt<T>(L: nat, B: nat, t: Buckets<T>, leaf: nat, m: nat, k: nat, o: nat)
    requires Shaped(L, B, t) && ValidLeaf(L, leaf) && k < m <= L && o < B
    ensures Pow2(k) <= Node(L, leaf, k) < |t|
    ensures Start(B, k) + o < Start(B, m)
    ensures FetchUpTo(L, B, t, leaf, m)[Start(B, k) + o] == t[Node(L, leaf, k)][o]
  {
    NodeBounds(L, leaf, k);
    StartMonotone(B, k + 1, m);
    if k < m - 1 {
      FetchAt(L, B, t, leaf, m - 1, k, o);
    }
  }

  lemma {:induction false} WriteOff<T>(L: nat, B: nat, t: Buckets<T>, leaf: nat, br: seq<T>, m: nat, n: nat)
    requires Shaped(L, B, t) && ValidLeaf(L, leaf) && |br| == Start(B, L) && m <= L && n < |t|
    requires forall k: nat :: k < m ==> Node(L, leaf, k) != n
    ensures WriteUpTo(L, B, t, leaf, br, m)[n] == t[n]
  {
    if m > 0 {
      NodeBounds(L, leaf, m - 1);
      WriteOff(L, B, t, leaf, br, m - 1, n);
    }
  }

  lemma {:induction false} WriteAt<T>(L: nat, B: nat, t: Buckets<T>, leaf: nat, br: seq<T>, m: nat, k: nat)
    requires Shaped(L, B, t) && ValidLeaf(L, leaf) && |br| == Start(B, L) && k < m <= L
    ensures Pow2(k) <= Node(L, leaf, k) < |t| && Start(B, k + 1) <= |br|
    ensures WriteUpTo(L, B, t, leaf, br, m)[Node(L, leaf, k)] == br[Start(B, k)..Start(B, k + 1)]
  {
    NodeBounds(L, leaf, k);
    StartMonotone(B, k + 1, L);
    if k < m - 1 {
      WriteAt(L, B, t, leaf, br, m - 1, k);
      NodeBounds(L, leaf, m - 1);
      if Node(L, leaf, k) == Node(L, leaf, m - 1) {
        NodesDiffer(L, leaf, leaf, k, m - 1);
      }
    }
  }

  /** An access touches only its path: all other buckets keep their contents. */
  lemma WriteBackFrame<T>(L: nat, B: nat, t: Buckets<T>, leaf: nat, br: seq<T>, n: nat)
    requires Shaped(L, B, t) && ValidLeaf(L, leaf) && |br| == Start(B, L) && n < |t|
    requires !OnPath(L, leaf, n)
    ensures WriteBack(L, B, t, leaf, br)[n] == t[n]
  {
    WriteOff(L, B, t, leaf, br, L, n);
  }

  /** Reading a path back yields what was written to it. */
  lemma FetchAfterWriteBack<T>(L: nat, B: nat, t: Buckets<T>, leaf: nat, br: seq<T>)
    requires Shaped(L, B, t) && ValidLeaf(L, leaf) && |br| == Start(B, L)
    ensures Fetch(L, B, WriteBack(L, B, t, leaf, br), leaf) == br
  {
    var t' := WriteBack(L, B, t, leaf, br);
    forall s | 0 <= s < |br|
      ensures Fetch(L, B, t', leaf)[s] == br[s]
    {
      var k := BucketOf(B, L, s);
      FetchAt(L, B, t', leaf, L, k, s - Start(B, k));
      WriteAt(L, B, t, leaf, br, L, k);
    }
  }

  /** A slot of the fetched branch is a slot of the tree. */
  lemma BranchSlot<T>(L: nat, B: nat, t: Buckets<T>, leaf: nat, s: nat) returns (k: nat, o: nat)
    requires Shaped(L, B, t) && ValidLeaf(L, leaf) && s < Start(B, L)
    ensures k < L && o < B && s == Start(B, k) + o && InBucket(B, k, s)
    ensures 1 <= Node(L, leaf, k) < |t| && OnPath(L, leaf, Node(L, leaf, k))
    ensures Fetch(L, B, t, leaf)[s] == t[Node(L, leaf, k)][o]
  {
    k := BucketOf(B, L, s);
    o := s - Start(B, k);
    FetchAt(L, B, t, leaf, L, k, o);
  }

  // ----- Reading the stored blocks through a decoding -----

  ghost function MapSeq<T, U>(f: T -> U, s: seq<T>): (r: seq<U>)
    ensures |r| == |s| && forall i :: 0 <= i < |s| ==> r[i] == f(s[i])
  {
    seq(|s|, i requires 0 <= i < |s| => f(s[i]))
  }

  ghost function MapTree<T, U>(f: T -> U, t: Buckets<T>): (r: Buckets<U>)
    ensures |r| == |t| && forall n :: 0 <= n < |t| ==> r[n] == MapSeq(f, t[n])
  {
    seq(|t|, n requires 0 <= n < |t| => MapSeq(f, t[n]))
  }

  lemma FetchMaps<T, U>(f: T -> U, L: nat, B: nat, t: Buckets<T>, leaf: nat)
    requires Shaped(L, B, t) && ValidLeaf(L, leaf)
    ensures Shaped(L, B, MapTree(f, t))
    ensures Fetch(L, B, MapTree(f, t), leaf) == MapSeq(f, Fetch(L, B, t, leaf))
  {
    forall s | 0 <= s < Start(B, L)
      ensures Fetch(L, B, MapTree(f, t), leaf)[s] == f(Fetch(L, B, t, leaf)[s])
    {
      var k, o := BranchSlot(L, B, t, leaf, s);
      FetchAt(L, B, MapTree(f, t), leaf, L, k, o);
    }
  }

  lemma {:induction false} WriteMaps<T, U>(f: T -> U, L: nat, B: nat, t: Buckets<T>, leaf: nat, br: seq<T>, k: nat)
    requires Shaped(L, B, t) && ValidLeaf(L, leaf) && |br| == Start(B, L) && k <= L
    ensures Shaped(L, B, MapTree(f, t))
    ensures WriteUpTo(L, B, MapTree(f, t), leaf, MapSeq(f, br), k) == MapTree(f, WriteUpTo(L, B, t, leaf, br, k))
  {
    if k > 0 {
      WriteMaps(f, L, B, t, leaf, br, k - 1);
      NodeInTree(L, leaf, k - 1);
      StartMonotone(B, k, L);
      var n := Node(L, leaf, k - 1);
      var lo, hi := Start(B, k - 1), Start(B, k);
      assert MapSeq(f, br)[lo..hi] == MapSeq(f, br[lo..hi]);
      var before := WriteUpTo(L, B, t, leaf, br, k - 1);
      assert MapTree(f, before)[n := MapSeq(f, br[lo..hi])] == MapTree(f, before[n := br[lo..hi]]);
    }
  }

  lemma WriteBackMaps<T, U>(f: T -> U, L: nat, B: nat, t: Buckets<T>, leaf: nat, br: seq<T>)
    requires Shaped(L, B, t) && ValidLeaf(L, leaf) && |br| == Start(B, L)
    ensures Shaped(L, B, MapTree(f, t))
    ensures WriteBack(L, B, MapTree(f, t), leaf, MapSeq(f, br)) == MapTree(f, WriteBack(L, B, t, leaf, br))
  {
    WriteMaps(f, L, B, t, leaf, br, L);
  }

  // ----- The main invariant -----

  /** The server's tree with the client's stash and position map. */
  datatype World = World(L: nat, B: nat, tree: Buckets<Slot>, stash: map<nat, Data>, positions: map<nat, nat>) {

    /** Every stored id is mapped, and lies in the stash or on the path to its mapped leaf. */
    ghost predicate OnOwnPath() {
      && (forall id :: id in positions ==> ValidLeaf(L, positions[id]))
      && (forall n: nat, o: nat, id, data :: InTree(tree, n, o, id, data) ==>
            id != 0 && id in positions && OnPath(L, positions[id], n))
      && (forall id :: id in stash ==> id != 0 && id in positions)
    }

    /** The main invariant but for the number of copies */
    ghost predicate Placed() {
      B >= 1 && Shaped(L, B, tree) && OnOwnPath()
    }

    ghost predicate Consistent() {
      Placed() && OneCopy(tree, stash)
    }

    /** The pair is stored, in the stash or in the tree. */
    ghost predicate Stored(id: nat, data: Data) {
      (id in stash && stash[id] == data) || exists n: nat, o: nat :: InTree(tree, n, o, id, data)
    }

    /** The pair is stored in a bucket that is not on the path to `leaf`. */
    ghost predicate OffPath(leaf: nat, id: nat, data: Data) {
      exists n: nat, o: nat :: InTree(tree, n, o, id, data) && !OnPath(L, leaf, n)
    }

    /** What the client holds when it has fetched the branch to `leaf`. */
    ghost function Fetched(leaf: nat): Store
      requires Shaped(L, B, tree) && ValidLeaf(L, leaf)
    {
      Store(Fetch(L, B, tree, leaf), stash)
    }

    ghost function Traversing(requested: nat): Context
      requires requested in positions
    {
      Context(L, B, positions, requested, positions[requested])
    }

    /** The world after the branch to `leaf` has been sent back and written. */
    ghost function Rewritten(leaf: nat, st: Store, positions': map<nat, nat>): World
      requires Shaped(L, B, tree) && ValidLeaf(L, leaf) && |st.branch| == Start(B, L)
    {
      World(L, B, WriteBack(L, B, tree, leaf, st.branch), st.stash, positions')
    }
  }

  ghost predicate InTree(t: Buckets<Slot>, n: nat, o: nat, id: nat, data: Data) {
    1 <= n < |t| && o < |t[n]| && t[n][o] == Full(id, data)
  }

  /** No id has a copy in two places. */
  ghost predicate OneCopy(t: Buckets<Slot>, stash: map<nat, Data>) {
    && (forall n: nat, o: nat, n': nat, o': nat, id, data,
       data' {:trigger InTree(t, n, o, id, data), InTree(t, n', o', id, data')} ::
          InTree(t, n, o, id, data) && InTree(t, n', o', id, data') ==> n == n' && o == o')
    && (forall n: nat, o: nat, id, data :: InTree(t, n, o, id, data) ==> id !in stash)
  }

  lemma StoredSplits(w: World, leaf: nat, id: nat, data: Data)
    requires Shaped(w.L, w.B, w.tree) && ValidLeaf(w.L, leaf)
    ensures w.Stored(id, data) <==> Holds(w.Fetched(leaf), id, data) || w.OffPath(leaf, id, data)
  {
    var br := Fetch(w.L, w.B, w.tree, leaf);
    if InBranch(br, id, data) {
      var s :| 0 <= s < |br| && br[s] == Full(id, data);
      var k, o := BranchSlot(w.L, w.B, w.tree, leaf, s);
      assert InTree(w.tree, Node(w.L, leaf, k), o, id, data);
    }
    if exists n: nat, o: nat :: InTree(w.tree, n, o, id, data) && OnPath(w.L, leaf, n) {
      var n: nat, o: nat :| InTree(w.tree, n, o, id, data) && OnPath(w.L, leaf, n);
      var k: nat :| k < w.L && Node(w.L, leaf, k) == n;
      FetchAt(w.L, w.B, w.tree, leaf, w.L, k, o);
      assert br[Start(w.B, k) + o] == Full(id, data);
    }
  }

  /** What the server sends for a mapped leaf satisfies all that the traversal relies on. */
  lemma FetchedIsReady(w: World, requested: nat)
    requires w.Consistent() && requested in w.positions
    ensures Ready(w.Traversing(requested), w.Fetched(w.positions[requested]))
  {
    var leaf := w.positions[requested];
    var br := Fetch(w.L, w.B, w.tree, leaf);
    FetchedUnique(w, leaf);
    forall s | 0 <= s < |br| && br[s].Full?
      ensures FitsAt(w.Traversing(requested), br[s].id, s)
    {
      FetchedFits(w, leaf, s);
    }
  }

  /** A tree with one copy of each block yields branches with one copy. */
  lemma FetchedUnique(w: World, leaf: nat)
    requires Shaped(w.L, w.B, w.tree) && ValidLeaf(w.L, leaf) && OneCopy(w.tree, w.stash)
    ensures Unique(w.Fetched(leaf))
  {
    var br := Fetch(w.L, w.B, w.tree, leaf);
    forall s | 0 <= s < |br| && br[s].Full?
      ensures br[s].id !in w.stash
    {
      var k, o := BranchSlot(w.L, w.B, w.tree, leaf, s);
      assert InTree(w.tree, Node(w.L, leaf, k), o, br[s].id, br[s].data);
    }
    forall s, s' | 0 <= s < |br| && 0 <= s' < |br| && br[s].Full? && br[s'].Full? && br[s].id == br[s'].id
      ensures s == s'
    {
      var k, o := BranchSlot(w.L, w.B, w.tree, leaf, s);
      var k', o' := BranchSlot(w.L, w.B, w.tree, leaf, s');
      assert InTree(w.tree, Node(w.L, leaf, k), o, br[s].id, br[s].data);
      assert InTree(w.tree, Node(w.L, leaf, k'), o', br[s].id, br[s'].data);
      NodesDiffer(w.L, leaf, leaf, k, k');
    }
  }

  lemma OneCopySeparate(w: World)
    requires OneCopy(w.tree, w.stash)
    ensures forall n: nat, o: nat, id, data :: InTree(w.tree, n, o, id, data) ==> id !in w.stash
  {
  }

  lemma FetchedFits(w: World, leaf: nat, s: nat)
    requires w.Consistent() && ValidLeaf(w.L, leaf)
    requires s < Start(w.B, w.L) && Fetch(w.L, w.B, w.tree, leaf)[s].Full?
    ensures var id := Fetch(w.L, w.B, w.tree, leaf)[s].id;
            id != 0 && id in w.positions && id !in w.stash && s < Start(w.B, Meet(w.L, leaf, w.positions[id]) + 1)
  {
    hide Node, Meet, Pow2, Fetch, OneCopy;
    var slot := Fetch(w.L, w.B, w.tree, leaf)[s];
    OneCopySeparate(w);
    var k, o := BranchSlot(w.L, w.B, w.tree, leaf, s);
    assert InTree(w.tree, Node(w.L, leaf, k), o, slot.id, slot.data);
    var own := w.positions[slot.id];
    var k': nat :| k' < w.L && Node(w.L, own, k') == Node(w.L, leaf, k);
    NodesDiffer(w.L, own, leaf, k', k);
    PathsAgree(w.L, leaf, own, k);
    StartMonotone(w.B, k + 1, Meet(w.L, leaf, own) + 1);
  }

  // ----- One access: the branch comes back rewritten -----

  ghost predicate BranchHas(L: nat, B: nat, leaf: nat, br: seq<Slot>, k: nat, n: nat, o: nat, id: nat, data: Data) {
    ValidLeaf(L, leaf) && k < L && Node(L, leaf, k) == n && Start(B, k) + o < Start(B, k + 1) <= |br| &&
    br[Start(B, k) + o] == Full(id, data)
  }

  /** A block of the rewritten tree comes from the new branch when its bucket is on the path, and
      was there before otherwise. */
  lemma WrittenSlot(L: nat, B: nat, t: Buckets<Slot>, leaf: nat, br: seq<Slot>, n: nat, o: nat, id: nat, data: Data)
    returns (k: nat)
    requires Shaped(L, B, t) && ValidLeaf(L, leaf) && |br| == Start(B, L)
    requires InTree(WriteBack(L, B, t, leaf, br), n, o, id, data)
    ensures if OnPath(L, leaf, n) then BranchHas(L, B, leaf, br, k, n, o, id, data) && InBranch(br, id, data)
            else InTree(t, n, o, id, data)
  {
    k := 0;
    if OnPath(L, leaf, n) {
      k :| k < L && Node(L, leaf, k) == n;
      WriteAt(L, B, t, leaf, br, L, k);
      assert br[Start(B, k) + o] == Full(id, data);
    } else {
      WriteBackFrame(L, B, t, leaf, br, n);
    }
  }

  /** What an access with result `st'` has to respect so that the rest of the tree stays right. */
  ghost predicate Rewrites(w: World, requested: nat, st': Store, positions': map<nat, nat>) {
    && w.Consistent() && requested in w.positions
    && Fitting(w.Traversing(requested).(positions := positions'), st') && (requested == 0 ==> 0 !in st'.stash)
    && (forall id, data :: Holds(st', id, data) && id != requested ==> Contains(w.Fetched(w.positions[requested]), id))
    && (forall id :: id in positions' ==> ValidLeaf(w.L, positions'[id]))
    && (forall id :: id in w.positions && id != requested ==> id in positions' && positions'[id] == w.positions[id])
  }

  /** The requested block and the blocks just handled are nowhere off the fetched path. */
  lemma OffPathIsOther(w: World, requested: nat, st': Store, positions': map<nat, nat>, n: nat, o: nat, id: nat,
      data: Data)
    requires Rewrites(w, requested, st', positions')
    requires InTree(w.tree, n, o, id, data) && !OnPath(w.L, w.positions[requested], n)
    ensures id != requested && id in positions' && positions'[id] == w.positions[id]
    ensures !Contains(st', id)
  {
    var leaf := w.positions[requested];
    var st := w.Fetched(leaf);
    if Contains(st', id) {
      var d :| Holds(st, id, d);
      var s :| 0 <= s < |st.branch| && st.branch[s] == Full(id, d);
      var k, o' := BranchSlot(w.L, w.B, w.tree, leaf, s);
      assert InTree(w.tree, Node(w.L, leaf, k), o', id, d);
      assert false;
    }
  }

  lemma RewrittenOneCopy(w: World, requested: nat, st': Store, positions': map<nat, nat>)
    requires Rewrites(w, requested, st', positions') && Unique(st')
    ensures OneCopy(w.Rewritten(w.positions[requested], st', positions').tree, st'.stash)
  {
    var leaf := w.positions[requested];
    var t' := WriteBack(w.L, w.B, w.tree, leaf, st'.branch);
    forall n: nat, o: nat, id, data | InTree(t', n, o, id, data)
      ensures id !in st'.stash
    {
      var k := WrittenSlot(w.L, w.B, w.tree, leaf, st'.branch, n, o, id, data);
      if !OnPath(w.L, leaf, n) {
        OffPathIsOther(w, requested, st', positions', n, o, id, data);
        assert id in st'.stash ==> Holds(st', id, st'.stash[id]);
      }
    }
    forall n: nat, o: nat, n': nat, o': nat, id, data, data' | InTree(t', n, o, id, data) &&
        InTree(t', n', o', id, data')
      ensures n == n' && o == o'
    {
      SamePlace(w, requested, st', positions', n, o, n', o', id, data, data');
    }
  }

  lemma SamePlace(w: World, requested: nat, st': Store, positions': map<nat, nat>,
                  n: nat, o: nat, n': nat, o': nat, id: nat, data: Data, data': Data)
    requires Rewrites(w, requested, st', positions') && UniqueIn(st'.branch)
    requires var t' := WriteBack(w.L, w.B, w.tree, w.positions[requested], st'.branch);
             InTree(t', n, o, id, data) && InTree(t', n', o', id, data')
    ensures n == n' && o == o'
  {
    var leaf := w.positions[requested];
    var k := WrittenSlot(w.L, w.B, w.tree, leaf, st'.branch, n, o, id, data);
    var k' := WrittenSlot(w.L, w.B, w.tree, leaf, st'.branch, n', o', id, data');
    if OnPath(w.L, leaf, n) && OnPath(w.L, leaf, n') {
      SameSlot(w.L, w.B, leaf, st'.branch, k, k', n, o, n', o', id, data, data');
    } else if OnPath(w.L, leaf, n) {
      NotBoth(w, requested, st', positions', n', o', id, data', data);
    } else if OnPath(w.L, leaf, n') {
      NotBoth(w, requested, st', positions', n, o, id, data, data');
    }
  }

  lemma SameSlot(L: nat, B: nat, leaf: nat, br: seq<Slot>, k: nat, k': nat,
                 n: nat, o: nat, n': nat, o': nat, id: nat, data: Data, data': Data)
    requires UniqueIn(br)
    requires BranchHas(L, B, leaf, br, k, n, o, id, data) && BranchHas(L, B, leaf, br, k', n', o', id, data')
    ensures n == n' && o == o'
  {
    assert Start(B, k) + o == Start(B, k') + o';
    BucketUnique(B, k, k', Start(B, k) + o);
  }

  /** An id in the new branch has no copy off the path. */
  lemma NotBoth(w: World, requested: nat, st': Store, positions': map<nat, nat>,
                n: nat, o: nat, id: nat, data: Data, data': Data)
    requires Rewrites(w, requested, st', positions')
    requires InTree(w.tree, n, o, id, data) && !OnPath(w.L, w.positions[requested], n)
    ensures !InBranch(st'.branch, id, data')
  {
    OffPathIsOther(w, requested, st', positions', n, o, id, data);
    assert !Holds(st', id, data');
  }

  lemma RewrittenOnOwnPath(w: World, requested: nat, st': Store, positions': map<nat, nat>)
    requires Rewrites(w, requested, st', positions')
    ensures w.Rewritten(w.positions[requested], st', positions').OnOwnPath()
  {
    var leaf := w.positions[requested];
    var t' := WriteBack(w.L, w.B, w.tree, leaf, st'.branch);
    forall n: nat, o: nat, id, data | InTree(t', n, o, id, data)
      ensures id != 0 && id in positions' && OnPath(w.L, positions'[id], n)
    {
      var k := WrittenSlot(w.L, w.B, w.tree, leaf, st'.branch, n, o, id, data);
      if OnPath(w.L, leaf, n) {
        FitsOnPath(w.Traversing(requested).(positions := positions'), st', k, Start(w.B, k) + o);
      } else {
        OffPathIsOther(w, requested, st', positions', n, o, id, data);
      }
    }
  }

  lemma FitsOnPath(c: Context, st: Store, k: nat, s: nat)
    requires Fitting(c, st) && ValidLeaf(c.L, c.leaf) && k < c.L
    requires InBucket(c.B, k, s) && s < |st.branch| && st.branch[s].Full?
    requires forall id :: id in c.positions ==> ValidLeaf(c.L, c.positions[id])
    ensures var id := st.branch[s].id;
            id != 0 && id in c.positions && OnPath(c.L, c.positions[id], Node(c.L, c.leaf, k))
  {
    var own := c.positions[st.branch[s].id];
    var m := Meet(c.L, c.leaf, own);
    if k > m {
      StartMonotone(c.B, m + 1, k);
      assert false;
    }
    PathsAgree(c.L, c.leaf, own, k);
    assert Node(c.L, own, k) == Node(c.L, c.leaf, k);
  }

  /** Where the pairs are after an access: those of the new branch and stash, and those off the
      path as before. */
  lemma RewrittenStored(w: World, leaf: nat, st': Store, positions': map<nat, nat>, id: nat, data: Data)
    requires Shaped(w.L, w.B, w.tree) && ValidLeaf(w.L, leaf) && |st'.branch| == Start(w.B, w.L)
    ensures w.Rewritten(leaf, st', positions').Stored(id, data) <==> Holds(st', id, data) || w.OffPath(leaf, id, data)
  {
    var w' := w.Rewritten(leaf, st', positions');
    FetchAfterWriteBack(w.L, w.B, w.tree, leaf, st'.branch);
    StoredSplits(w', leaf, id, data);
    if w.OffPath(leaf, id, data) {
      var n: nat, o: nat :| InTree(w.tree, n, o, id, data) && !OnPath(w.L, leaf, n);
      WriteBackFrame(w.L, w.B, w.tree, leaf, st'.branch, n);
      assert InTree(w'.tree, n, o, id, data);
    }
    if w'.OffPath(leaf, id, data) {
      var n: nat, o: nat :| InTree(w'.tree, n, o, id, data) && !OnPath(w.L, leaf, n);
      WriteBackFrame(w.L, w.B, w.tree, leaf, st'.branch, n);
      assert InTree(w.tree, n, o, id, data);
    }
  }

  lemma RewrittenIs(w: World, leaf: nat, st: Store, positions: map<nat, nat>)
    requires Shaped(w.L, w.B, w.tree) && ValidLeaf(w.L, leaf) && |st.branch| == Start(w.B, w.L)
    ensures w.Rewritten(leaf, st, positions) ==
            World(w.L, w.B, WriteBack(w.L, w.B, w.tree, leaf, st.branch), st.stash, positions)
    ensures Shaped(w.L, w.B, w.Rewritten(leaf, st, positions).tree)
  {
  }

  /** The stored pairs before and after an operation on the requested id. */
  ghost predicate StoredUpdated(op: Operation, requested: nat, value: Data, w: World, w': World) {
    forall id, data :: w'.Stored(id, data) <==>
      match op
      case Read => w.Stored(id, data)
      case Write => if id == requested then data == value else w.Stored(id, data)
      case Clear => id != requested && w.Stored(id, data)
  }

  /** One access keeps every block on its own path and changes the stored pairs only as the operation
      says, although branch, stash and position map are all reshuffled. It keeps the main invariant if
      and only if the rewritten branch and the stash hold no block twice. */
  lemma AccessCorrect(w: World, requested: nat, op: Operation, buffer: Option<Data>, newLeaf: nat, r: Result)
    requires w.Consistent() && requested in w.positions && requested != 0 && ValidLeaf(w.L, newLeaf)
    requires r.positions == w.positions || r.positions == w.positions[requested := newLeaf]
    requires Achieves(w.Traversing(requested), w.Fetched(w.positions[requested]), op, buffer, r)
    ensures var w' := w.Rewritten(w.positions[requested], r.st, r.positions);
            && w'.Placed() && StoredUpdated(op, requested, buffer.GetOr([]), w, w')
            && (OneCopy(w'.tree, w'.stash) <==> Unique(r.st))
    ensures op.Read? ==> r.buffer.Some? && w.Stored(requested, r.buffer.value)
  {
    var leaf := w.positions[requested];
    AccessRewrites(w, requested, op, buffer, newLeaf, r);
    RewrittenOnOwnPath(w, requested, r.st, r.positions);
    AccessStored(w, requested, op, buffer.GetOr([]), r.st, r.positions);
    RewrittenOneCopyIff(w, requested, r.st, r.positions);
    if op.Read? {
      StoredSplits(w, leaf, requested, r.buffer.value);
    }
  }

  lemma RewrittenOneCopyIff(w: World, requested: nat, st': Store, positions': map<nat, nat>)
    requires Rewrites(w, requested, st', positions')
    ensures var w' := w.Rewritten(w.positions[requested], st', positions');
            OneCopy(w'.tree, w'.stash) <==> Unique(st')
  {
    var leaf := w.positions[requested];
    var w' := w.Rewritten(leaf, st', positions');
    if Unique(st') {
      RewrittenOneCopy(w, requested, st', positions');
    }
    if OneCopy(w'.tree, w'.stash) {
      FetchedUnique(w', leaf);
      FetchAfterWriteBack(w.L, w.B, w.tree, leaf, st'.branch);
    }
  }

  lemma AccessRewrites(w: World, requested: nat, op: Operation, buffer: Option<Data>, newLeaf: nat, r: Result)
    requires w.Consistent() && requested in w.positions && requested != 0 && ValidLeaf(w.L, newLeaf)
    requires r.positions == w.positions || r.positions == w.positions[requested := newLeaf]
    requires Achieves(w.Traversing(requested), w.Fetched(w.positions[requested]), op, buffer, r)
    ensures Rewrites(w, requested, r.st, r.positions)
  {
    var st := w.Fetched(w.positions[requested]);
    forall id, data | Holds(r.st, id, data) && id != requested
      ensures Contains(st, id)
    {
      assert Holds(st, id, data);
    }
  }

  lemma AccessStored(w: World, requested: nat, op: Operation, value: Data, st': Store, positions': map<nat, nat>)
    requires Rewrites(w, requested, st', positions')
    requires Updated(op, requested, value, w.Fetched(w.positions[requested]), st')
    ensures StoredUpdated(op, requested, value, w, w.Rewritten(w.positions[requested], st', positions'))
  {
    var leaf := w.positions[requested];
    forall id, data
      ensures w.Rewritten(leaf, st', positions').Stored(id, data) <==> Holds(st', id, data) || w.OffPath(leaf, id, data)
      ensures w.Stored(id, data) <==> Holds(w.Fetched(leaf), id, data) || w.OffPath(leaf, id, data)
      ensures w.OffPath(leaf, id, data) ==> id != requested
    {
      RewrittenStored(w, leaf, st', positions', id, data);
      StoredSplits(w, leaf, id, data);
    }
  }

  /** A stored block whose leaf is fetched is on the fetched branch or in the stash. */
  lemma StoredIsFetched(w: World, requested: nat)
    requires w.Consistent() && requested in w.positions
    ensures (exists d :: w.Stored(requested, d)) <==> Contains(w.Fetched(w.positions[requested]), requested)
  {
    var leaf := w.positions[requested];
    forall d
      ensures w.Stored(requested, d) <==> Holds(w.Fetched(leaf), requested, d)
    {
      StoredSplits(w, leaf, requested, d);
    }
  }
}
