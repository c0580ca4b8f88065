/** The loop of `traverse_branch` over the fetched branch (src/single_client.cpp:456-513), as a function
    of the branch, the stash and the position map. */
module BranchLoop {
  import opened Paths
  import opened Bytes
  import opened Slots

  /** What stays fixed during one traversal: the tree, the position map on entry, the requested
      id and the leaf whose branch was fetched. */
  datatype Context = Context(L: nat, B: nat, positions: map<nat, nat>, requested: nat, leaf: nat) {

    ghost predicate Valid() {
      && L >= 1 && B >= 1
      && ValidLeaf(L, leaf)
      && requested in positions
      && forall id :: id in positions ==> ValidLeaf(L, positions[id])
    }

    /** The depth of the deepest bucket on the fetched branch that may hold block `id`. */
    function Depth(id: nat): nat {
      if id in positions && ValidLeaf(L, positions[id]) && ValidLeaf(L, leaf)
      then Meet(L, leaf, positions[id])
      else 0
    }

    function Remap(newLeaf: nat): Context {
      this.(positions := positions[requested := newLeaf])
    }
  }

  /** Every block on the fetched branch is known and lies on the path to its own leaf; the stash
      holds known blocks. Id 0, the mark of a free slot, is in the stash only when it is requested. */
  ghost predicate Fitting(c: Context, st: Store) {
    && |st.branch| == Start(c.B, c.L)
    && (forall s :: 0 <= s < |st.branch| && st.branch[s].Full? ==> FitsAt(c, st.branch[s].id, s))
    && (forall id :: id in st.stash ==> id in c.positions && (id == 0 ==> c.requested == 0))
  }

  ghost predicate FitsAt(c: Context, id: nat, s: nat) {
    id != 0 && id in c.positions && s < Start(c.B, c.Depth(id) + 1)
  }

  lemma DepthBounds(c: Context, id: nat)
    requires c.Valid()
    ensures c.Depth(id) < c.L
    ensures Start(c.B, c.Depth(id) + 1) <= Start(c.B, c.L)
    ensures Start(c.B, c.Depth(id) + 1) == Start(c.B, c.Depth(id)) + c.B
  {
    if id in c.positions {
      MeetBounds(c.L, c.leaf, c.positions[id]);
    }
    StartMonotone(c.B, c.Depth(id) + 1, c.L);
  }

  /** Lines 491-512: a block that was not requested moves to a free slot of its deepest common
      bucket, or to the stash when that bucket is full. */
  function Visit(c: Context, st: Store, s: nat): (r: Store)
    requires s < |st.branch|
    ensures |r.branch| == |st.branch|
  {
    match st.branch[s]
    case Free => st
    case Full(id, data) =>
      var hi := Start(c.B, c.Depth(id) + 1);
      var j := if hi <= |st.branch| then FindFree(st.branch, Start(c.B, c.Depth(id)), hi) else hi;
      if j < hi then st.(branch := st.branch[s := Free][j := st.branch[s]])
      else Store(st.branch[s := Free], st.stash[id := data])
  }

  lemma DepthIs(c: Context, id: nat)
    requires c.Valid() && id in c.positions
    ensures ValidLeaf(c.L, c.leaf) && ValidLeaf(c.L, c.positions[id])
    ensures c.Depth(id) == Meet(c.L, c.leaf, c.positions[id])
  {
  }

  lemma VisitIs(c: Context, st: Store, s: nat, id: nat, data: Data, hi: nat, j: nat)
    requires s < |st.branch| && st.branch[s] == Full(id, data) && hi == Start(c.B, c.Depth(id) + 1) <= |st.branch|
    requires j == FindFree(st.branch, Start(c.B, c.Depth(id)), hi)
    ensures j < hi ==>
            j < |st.branch| && st.branch[j].Free? &&
                Visit(c, st, s) == st.(branch := st.branch[s := st.branch[j]][j := st.branch[s]])
    ensures j >= hi ==> Visit(c, st, s) == Store(st.branch[s := Free], st.stash[id := data])
  {
  }

  datatype Outcome = Found(st: Store, at: nat) | Missing(st: Store)

  /** The loop from slot `s` on: it stops at the requested block. */
  function Walk(c: Context, st: Store, s: nat): (r: Outcome)
    requires s <= |st.branch|
    ensures |r.st.branch| == |st.branch|
    ensures r.Found? ==> s <= r.at < |r.st.branch| && r.st.branch[r.at].Full? && r.st.branch[r.at].id == c.requested
    decreases |st.branch| - s
  {
    if s == |st.branch| then Missing(st)
    else if st.branch[s].Full? && st.branch[s].id == c.requested then Found(st, s)
    else Walk(c, Visit(c, st, s), s + 1)
  }

  lemma WalkIs(c: Context, st: Store, s: nat)
    requires s <= |st.branch|
    ensures s == |st.branch| ==> Walk(c, st, s) == Missing(st)
    ensures s < |st.branch| && st.branch[s].Full? && st.branch[s].id == c.requested ==> Walk(c, st, s) == Found(st, s)
    ensures s < |st.branch| && !(st.branch[s].Full? && st.branch[s].id == c.requested) ==>
              Walk(c, st, s) == Walk(c, Visit(c, st, s), s + 1)
    ensures s < |st.branch| && st.branch[s].Free? ==> Visit(c, st, s) == st
  {
  }

  /** Every occupied slot below `n` lies in the deepest common bucket of its block, which is not
      the requested one. */
  ghost predicate Exact(c: Context, br: seq<Slot>, n: nat) {
    forall s :: 0 <= s < n && s < |br| && br[s].Full? ==>
      InBucket(c.B, c.Depth(br[s].id), s) && br[s].id != c.requested
  }

  /** Every bucket that starts below slot `n` has a free slot. */
  ghost predicate Roomy(c: Context, br: seq<Slot>, n: nat) {
    forall k: nat :: k < c.L && Start(c.B, k) < n ==> HasFree(c.B, br, k)
  }

  ghost predicate HasFree(B: nat, br: seq<Slot>, k: nat) {
    exists t :: 0 <= t < |br| && InBucket(B, k, t) && br[t].Free?
  }

  /** A block of `b` is where it was in `a` or in its deepest common bucket. */
  ghost predicate Settled(c: Context, a: seq<Slot>, b: seq<Slot>) {
    |a| == |b| &&
    forall s :: 0 <= s < |b| && b[s].Full? ==> b[s] == a[s] || InBucket(c.B, c.Depth(b[s].id), s)
  }

  /** No block of `a` lies in a shallower bucket of `b`. */
  ghost predicate NoneShallower(c: Context, a: seq<Slot>, b: seq<Slot>) {
    forall s, t, k: nat | 0 <= s < |a| && 0 <= t < |b| && a[s].Full? && b[t].Full? && a[s].id == b[t].id &&
      InBucket(c.B, k, s) :: Start(c.B, k) <= t
  }

  lemma SettledNoneShallower(c: Context, st: Store, b: seq<Slot>)
    requires Fitting(c, st) && UniqueIn(st.branch) && Settled(c, st.branch, b)
    ensures NoneShallower(c, st.branch, b)
  {
    var a := st.branch;
    forall s, t, k: nat | 0 <= s < |a| && 0 <= t < |b| && a[s].Full? && b[t].Full? && a[s].id == b[t].id &&
      InBucket(c.B, k, s)
      ensures Start(c.B, k) <= t
    {
      if b[t] != a[t] {
        var d := c.Depth(a[s].id);
        if k > d {
          StartMonotone(c.B, d + 1, k);
        } else {
          StartMonotone(c.B, k, d);
        }
      }
    }
  }

  lemma VisitFitting(c: Context, st: Store, n: nat)
    requires c.Valid() && Fitting(c, st) && n < |st.branch|
    ensures Fitting(c, Visit(c, st, n))
  {
    if st.branch[n].Full? {
      DepthBounds(c, st.branch[n].id);
    }
  }

  lemma VisitUnique(c: Context, st: Store, n: nat)
    requires c.Valid() && Unique(st) && n < |st.branch|
    ensures Unique(Visit(c, st, n))
  {
  }

  lemma VisitContents(c: Context, st: Store, n: nat)
    requires c.Valid() && Unique(st) && n < |st.branch|
    ensures SameContents(st, Visit(c, st, n))
  {
    if st.branch[n].Full? {
      var hi := Start(c.B, c.Depth(st.branch[n].id) + 1);
      var j := if hi <= |st.branch| then FindFree(st.branch, Start(c.B, c.Depth(st.branch[n].id)), hi) else hi;
      if j < hi {
        MoveKeepsContents(st, n, j);
      } else {
        EvictKeepsContents(st, n);
      }
    }
  }

  lemma VisitExact(c: Context, st: Store, n: nat)
    requires c.Valid() && Fitting(c, st) && n < |st.branch|
    requires st.branch[n].Full? ==> st.branch[n].id != c.requested
    requires Exact(c, st.branch, n)
    ensures Exact(c, Visit(c, st, n).branch, n + 1)
    ensures Visit(c, st, n).branch[n].Free?
  {
    if st.branch[n].Full? {
      DepthBounds(c, st.branch[n].id);
    }
  }

  lemma VisitSettled(c: Context, a: seq<Slot>, st: Store, n: nat)
    requires c.Valid() && n < |st.branch| && Settled(c, a, st.branch)
    ensures Settled(c, a, Visit(c, st, n).branch)
  {
  }

  /** A visit fills a slot only in the bucket it frees one in, or in a deeper one. */
  lemma VisitRoomy(c: Context, st: Store, n: nat)
    requires c.Valid() && Fitting(c, st) && n < |st.branch| && Roomy(c, st.branch, n)
    ensures Roomy(c, Visit(c, st, n).branch, n + 1)
  {
    forall k: nat | k < c.L && Start(c.B, k) < n + 1
      ensures HasFree(c.B, Visit(c, st, n).branch, k)
    {
      if Start(c.B, k + 1) <= n {
        StartMonotone(c.B, k, k + 1);
        var t := VisitKeepsFree(c, st, n, k);
      } else {
        VisitFrees(c, st, n);
        assert InBucket(c.B, k, n);
      }
    }
  }

  lemma VisitFrees(c: Context, st: Store, n: nat)
    requires n < |st.branch|
    ensures Visit(c, st, n).branch[n].Free?
  {
  }

  lemma VisitKeepsFree(c: Context, st: Store, n: nat, k: nat) returns (t: nat)
    requires c.Valid() && Fitting(c, st) && n < |st.branch|
    requires Start(c.B, k + 1) <= n && HasFree(c.B, st.branch, k)
    ensures t < |st.branch| && InBucket(c.B, k, t) && Visit(c, st, n).branch[t].Free?
  {
    t :| t < |st.branch| && InBucket(c.B, k, t) && st.branch[t].Free?;
    if st.branch[n].Full? {
      var d := c.Depth(st.branch[n].id);
      if d < k {
        StartMonotone(c.B, d + 1, k);
      } else if d > k {
        StartMonotone(c.B, k + 1, d);
      }
    }
  }

  /** What the branch loop maintains, when it started from `st0` and has visited `n` slots. */
  ghost predicate Walked(c: Context, st0: Store, st: Store, n: nat) {
    && Fitting(c, st) && Unique(st)
    && SameContents(st0, st)
    && Settled(c, st0.branch, st.branch)
    && Exact(c, st.branch, n)
    && Roomy(c, st.branch, n)
  }

  lemma VisitWalked(c: Context, st0: Store, st: Store, n: nat)
    requires c.Valid() && n < |st.branch| && Walked(c, st0, st, n)
    requires st.branch[n].Full? ==> st.branch[n].id != c.requested
    ensures Walked(c, st0, Visit(c, st, n), n + 1)
  {
    VisitFitting(c, st, n);
    VisitUnique(c, st, n);
    VisitContents(c, st, n);
    VisitSettled(c, st0.branch, st, n);
    VisitExact(c, st, n);
    VisitRoomy(c, st, n);
  }

  lemma {:induction false} WalkKeeps(c: Context, st0: Store, st: Store, n: nat)
    requires c.Valid() && n <= |st.branch| && Walked(c, st0, st, n)
    ensures var r := Walk(c, st, n);
            Walked(c, st0, r.st, if r.Found? then r.at else |r.st.branch|)
    decreases |st.branch| - n
  {
    hide Walked, Walk, Visit, Context.Valid;
    WalkIs(c, st, n);
    if n < |st.branch| && !(st.branch[n].Full? && st.branch[n].id == c.requested) {
      VisitWalked(c, st0, st, n);
      WalkKeeps(c, st0, Visit(c, st, n), n + 1);
    }
  }
}
