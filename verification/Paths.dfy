/** The two path computations that client and server make independently of each other: the
    client's deepest common bucket (src/single_client.cpp) and the server's list of
    heap indices (src/server.cpp). A tree of `L` levels has leaves 1..2^(L-1) and
    buckets 1..2^L-1, bucket 1 being the root. */
module Paths {
  import opened Arithmetic

  predicate ValidLeaf(L: nat, leaf: int) {
    L >= 1 && 1 <= leaf <= Pow2(L - 1)
  }

  /** The heap index of the bucket at depth `k` on the way to `leaf`, in closed form. */
  function Node(L: nat, leaf: int, k: nat): nat
    requires ValidLeaf(L, leaf) && k < L
  {
    Pow2(k) + Shr(leaf - 1, L - 1 - k)
  }

  function Path(L: nat, leaf: int): (p: seq<nat>)
    requires ValidLeaf(L, leaf)
    ensures |p| == L
    ensures forall k :: 0 <= k < L ==> p[k] == Node(L, leaf, k)
  {
    seq(L, k requires 0 <= k < L => Node(L, leaf, k))
  }

  function MeetFrom(x: nat, y: nat, idx: nat): nat
    requires x < Pow2(idx) && y < Pow2(idx)
    decreases idx
  {
    if x == y then idx else MeetFrom(x / 2, y / 2, idx - 1)
  }

  /** The depth of the deepest bucket that the paths to `a` and `b` share. */
  function Meet(L: nat, a: int, b: int): nat
    requires ValidLeaf(L, a) && ValidLeaf(L, b)
  {
    MeetFrom(a - 1, b - 1, L - 1)
  }

  lemma {:induction false} MeetFromSpec(x: nat, y: nat, idx: nat, k: nat)
    requires x < Pow2(idx) && y < Pow2(idx) && k <= idx
    ensures MeetFrom(x, y, idx) <= idx
    ensures Shr(x, idx - k) == Shr(y, idx - k) <==> k <= MeetFrom(x, y, idx)
    decreases idx
  {
    if x != y {
      MeetFromSpec(x / 2, y / 2, idx - 1, if k == idx then 0 else k);
    }
  }

  lemma MeetBounds(L: nat, a: int, b: int)
    requires ValidLeaf(L, a) && ValidLeaf(L, b)
    ensures Meet(L, a, b) < L
    ensures Meet(L, a, a) == L - 1
  {
    MeetFromSpec(a - 1, b - 1, L - 1, 0);
  }

  /** Client and server agree: two paths carry the same bucket at depth `k` exactly when `k`
      does not exceed the client's deepest common bucket. */
  lemma PathsAgree(L: nat, a: int, b: int, k: nat)
    requires ValidLeaf(L, a) && ValidLeaf(L, b) && k < L
    ensures Path(L, a)[k] == Path(L, b)[k] <==> k <= Meet(L, a, b)
  {
    MeetFromSpec(a - 1, b - 1, L - 1, k);
  }

  lemma NodeBounds(L: nat, leaf: int, k: nat)
    requires ValidLeaf(L, leaf) && k < L
    ensures Pow2(k) <= Node(L, leaf, k) < 2 * Pow2(k) <= Pow2(L)
  {
    ShrBelow(leaf - 1, L - 1, k);
    Pow2Monotone(k, L);
  }

  lemma NodeInTree(L: nat, leaf: int, k: nat)
    requires ValidLeaf(L, leaf) && k < L
    ensures 1 <= Node(L, leaf, k) < Pow2(L)
  {
    NodeBounds(L, leaf, k);
  }

  /** A path is a chain in the heap: it starts at the root and every bucket is the parent of
      the next one. */
  lemma PathIsHeapChain(L: nat, leaf: int, k: nat)
    requires ValidLeaf(L, leaf) && k + 1 < L
    ensures Path(L, leaf)[0] == 1
    ensures Path(L, leaf)[k] == Path(L, leaf)[k + 1] / 2
  {
    NodeBounds(L, leaf, 0);
    ShrStep(leaf - 1, L - 2 - k);
  }

  /** Buckets at different depths differ, even on different paths. */
  lemma NodesDiffer(L: nat, a: int, b: int, j: nat, k: nat)
    requires ValidLeaf(L, a) && ValidLeaf(L, b) && j < L && k < L
    requires Node(L, a, j) == Node(L, b, k)
    ensures j == k
  {
    NodeBounds(L, a, j);
    NodeBounds(L, b, k);
    if j < k {
      Pow2Monotone(j, k);
    } else if k < j {
      Pow2Monotone(k, j);
    }
  }

  lemma {:induction false} DepthOf(n: nat, L: nat) returns (k: nat)
    requires L >= 1 && 1 <= n < Pow2(L)
    ensures k < L && Pow2(k) <= n < 2 * Pow2(k)
  {
    if n >= Pow2(L - 1) {
      k := L - 1;
    } else {
      k := DepthOf(n, L - 1);
    }
  }

  /** The paths cover the tree: every bucket 1..2^L-1 lies on the path to some leaf. */
  lemma EveryBucketOnAPath(L: nat, n: nat) returns (leaf: nat, k: nat)
    requires L >= 1 && 1 <= n < Pow2(L)
    ensures k < L && ValidLeaf(L, leaf) && Path(L, leaf)[k] == n
  {
    k := DepthOf(n, L);
    ShrOfShl(n - Pow2(k), L - 1 - k, k);
    leaf := Shl(n - Pow2(k), L - 1 - k) + 1;
    assert k + (L - 1 - k) == L - 1;
  }

  /** The client's loop: shift both leaves until they coincide. `idSpace` is the number of
      values of a block id, the type of all its locals. */
  method FindIntersectionBucket(L: nat, idSpace: nat, leaf1: nat, leaf2: nat) returns (idx: nat)
    requires ValidLeaf(L, leaf1) && ValidLeaf(L, leaf2) && L <= idSpace
    ensures idx == Meet(L, leaf1, leaf2) < L
    ensures forall k :: 0 <= k < L ==> (Path(L, leaf1)[k] == Path(L, leaf2)[k] <==> k <= idx)
  {
    idx := L - 1;
    var l1: nat, l2: nat := leaf1 - 1, leaf2 - 1;
    MeetBounds(L, leaf1, leaf2);
    while l1 != l2
      invariant idx < L && l1 < Pow2(idx) && l2 < Pow2(idx)
      invariant MeetFrom(l1, l2, idx) == Meet(L, leaf1, leaf2)
      decreases idx
    {
      l1 := l1 / 2;
      l2 := l2 / 2;
      WrapFits(idx - 1, idSpace);
      idx := Wrap(idx - 1, idSpace);
    }
    forall k: nat | k < L
      ensures Path(L, leaf1)[k] == Path(L, leaf2)[k] <==> k <= idx
    {
      PathsAgree(L, leaf1, leaf2, k);
    }
  }

  /** Descending one level appends the next bit of the leaf to the heap index, and an index
      that will be pushed does not wrap. */
  lemma NodeStep(L: nat, w: nat, leaf: int, k: nat)
    requires ValidLeaf(L, leaf) && k + 1 < L <= w
    ensures Node(L, leaf, k + 1) == 2 * Node(L, leaf, k) + Bit(leaf - 1, L - 2 - k) < Pow2(w)
  {
    ShrStep(leaf - 1, L - 2 - k);
    NodeBounds(L, leaf, k + 1);
    Pow2Monotone(k + 2, w);
  }

  /** `bits` is `x << i` as far as the places up to `L - 2` are concerned. */
  ghost predicate ShiftedBy(bits: nat, x: nat, i: nat, L: nat) {
    forall n :: i <= n <= L - 2 ==> Bit(bits, n) == Bit(x, n - i)
  }

  lemma ShiftOnce(bits: nat, x: nat, i: nat, L: nat, w: nat)
    requires 2 <= L <= w && bits < Pow2(w) && ShiftedBy(bits, x, i, L)
    ensures ShiftedBy(Wrap(2 * bits, Pow2(w)), x, i + 1, L)
    ensures Wrap(2 * bits, Pow2(w)) < Pow2(w)
  {
    forall n: nat | i + 1 <= n <= L - 2
      ensures Bit(Wrap(2 * bits, Pow2(w)), n) == Bit(x, n - (i + 1))
    {
      BitOfDouble(bits, w, n - 1);
      assert Bit(bits, n - 1) == Bit(x, n - 1 - i);
    }
    BitOfDouble(bits, w, 0);
  }

  /** The server's shift-and-mask loop. Both locals are block ids of `w` bits and wrap; the wrap
      never reaches a pushed index. An invalid leaf is refused without a push. */
  method GetBranchIndexes(L: nat, w: nat, leaf: nat) returns (rc: int, indexes: seq<nat>)
    requires 2 <= L <= w
    ensures rc == 0 <==> ValidLeaf(L, leaf)
    ensures rc == 0 ==> indexes == Path(L, leaf)
    ensures rc != 0 ==> rc == -1 && indexes == []
  {
    indexes := [];
    if leaf == 0 || leaf > Pow2(L - 1) {
      return -1, indexes;
    }
    var bits: nat, treeIdx: nat := leaf - 1, 1;
    NodeBounds(L, leaf, 0);
    Pow2Monotone(L - 1, w);
    var i := 0;
    while i < L
      invariant 0 <= i <= L
      invariant |indexes| == i && forall k :: 0 <= k < i ==> indexes[k] == Node(L, leaf, k)
      invariant i < L ==> treeIdx == Node(L, leaf, i)
      invariant bits < Pow2(w)
      invariant ShiftedBy(bits, leaf - 1, i, L)
    {
      indexes := indexes + [treeIdx];
      if i + 1 < L {
        NodeStep(L, w, leaf, i);
        assert Bit(bits, L - 2) == Bit(leaf - 1, L - 2 - i);
        WrapFits(Node(L, leaf, i + 1), Pow2(w));
      }
      if Bit(bits, L - 2) == 1 {
        treeIdx := Wrap(treeIdx * 2 + 1, Pow2(w));
      } else {
        treeIdx := Wrap(treeIdx * 2, Pow2(w));
      }
      ShiftOnce(bits, leaf - 1, i, L, w);
      bits := Wrap(2 * bits, Pow2(w));
      i := i + 1;
    }
    rc := 0;
  }
}
