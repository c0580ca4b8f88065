/** What a traversal guarantees about where blocks end up, and how much the stash can grow. */
module Results {
  import opened Wrappers
  import opened Bytes
  import opened Paths
  import opened Slots
  import opened BranchLoop
  import opened Replacement
  import opened StashScan
  import opened Traversal

  /** Greedy placement of the branch loop: no block moves to a shallower bucket, and when the requested
      block is not on the branch, every block left there lies exactly in its deepest common bucket and
      every bucket has a free slot. */
  lemma BranchLoopPlacement(c: Context, st: Store)
    requires Ready(c, st)
    ensures var w := Walk(c, st, 0);
            && NoneShallower(c, st.branch, w.st.branch)
            && (w.Missing? ==> forall s :: 0 <= s < |w.st.branch| && w.st.branch[s].Full? ==>
                  InBucket(c.B, c.Depth(w.st.branch[s].id), s) && w.st.branch[s].id != c.requested)
            && (w.Missing? ==> forall k: nat :: k < c.L ==> HasFree(c.B, w.st.branch, k))
  {
    WalkFromStart(c, st);
    var w := Walk(c, st, 0);
    SettledNoneShallower(c, st, w.st.branch);
    forall k: nat | k < c.L
      ensures Start(c.B, k) < Start(c.B, c.L)
    {
      StartMonotone(c.B, k, c.L);
    }
  }

  /** Re-placement of a requested block found on the branch: it ends in the stash exactly when it was
      found in the very first slot and all other slots of the buckets common to its old and new leaf
      are full; otherwise it ends in a slot of such a bucket. A clear writes nothing to the stash. */
  lemma ReplacementGuarantee(c: Context, st: Store, op: Operation, value: Data, newLeaf: nat)
    requires Ready(c, st) && ValidLeaf(c.L, newLeaf) && Walk(c, st, 0).Found?
    ensures var w := Walk(c, st, 0);
            && Reach(c, newLeaf) <= |w.st.branch|
            && var r := Replace(c, w.st, w.at, op, value, newLeaf);
            && (c.requested in r.stash <==>
                  op != Clear && w.at == 0 && forall t :: 1 <= t < Reach(c, newLeaf) ==> w.st.branch[t].Full?)
            && (op != Clear && c.requested !in r.stash ==>
                  exists t :: 0 <= t < Reach(c, newLeaf) && r.branch[t].Full? && r.branch[t].id == c.requested)
            && (op == Clear ==> r.stash == w.st.stash)
  {
    WalkFromStart(c, st);
    var w := Walk(c, st, 0);
    ReachBounds(c, newLeaf);
    ReplaceInStash(c, w.st, w.at, op, value, newLeaf);
    var j := FindFreeDown(Apply(w.st, w.at, op, value), Reach(c, newLeaf));
    if op != Clear && j > 0 {
      assert Replace(c, w.st, w.at, op, value, newLeaf).branch[j - 1].Full?;
    }
  }

  /** When the scan has run through the stash, every block that stays there has a full deepest common
      bucket. */
  lemma ScanLeavesFullBuckets(c: Context, st: Store, order: seq<nat>)
    requires Ready(c, st) && ScanOrder(c, st, order) && Walk(c, st, 0).Missing?
    ensures var w := Walk(c, st, 0).st;
            && Fitting(c, w)
            && var s := ScanAll(c, w, order);
            s.at == |order| ==> forall id :: id in Rest(s, w.stash).stash ==> BucketFull(c, s.branch, id)
  {
    ScanFromStart(c, st, order);
    var w := Walk(c, st, 0).st;
    var s := ScanAll(c, w, order);
    if s.at == |order| {
      forall id | id in Rest(s, w.stash).stash
        ensures BucketFull(c, s.branch, id)
      {
        assert id in order;
      }
    }
  }

  // ----- How much the stash can grow -----

  ghost function Ids(br: seq<Slot>): set<nat> {
    set s | 0 <= s < |br| && br[s].Full? :: br[s].id
  }

  lemma {:induction false} AtMostLength(br: seq<Slot>)
    ensures |Ids(br)| <= |br|
    decreases br
  {
    if br != [] {
      var n := |br| - 1;
      AtMostLength(br[..n]);
      var last := if br[n].Full? then {br[n].id} else {};
      assert Ids(br) <= Ids(br[..n]) + last by {
        forall id | id in Ids(br)
          ensures id in Ids(br[..n]) + last
        {
          var s :| 0 <= s < |br| && br[s].Full? && br[s].id == id;
          assert s < n ==> br[..n][s].Full?;
        }
      }
      UnionSize(Ids(br), Ids(br[..n]), last);
    }
  }

  lemma UnionSize<T>(a: set<T>, b: set<T>, c: set<T>)
    requires a <= b + c
    ensures |a| <= |b| + |c|
  {
    assert |b + c| == |b| + |c - b|;
    assert |c - b| + |c * b| == |c| by { assert c == (c - b) + (c * b); }
    assert b + c == a + (b + c - a);
    assert |b + c| == |a| + |b + c - a|;
  }

  /** The ids after a traversal are among those before and the requested one. */
  lemma IdsAfter(c: Context, st: Store, op: Operation, buffer: Option<Data>, r: Result)
    requires Achieves(c, st, op, buffer, r)
    ensures r.st.stash.Keys <= st.stash.Keys + Ids(st.branch) + {c.requested}
    ensures r.st.stash.Keys + Ids(r.st.branch) <= st.stash.Keys + Ids(st.branch) + {c.requested}
  {
    forall id | id in r.st.stash.Keys + Ids(r.st.branch)
      ensures id in st.stash.Keys + Ids(st.branch) + {c.requested}
    {
      if id in r.st.stash {
        assert Holds(r.st, id, r.st.stash[id]);
      } else {
        var s :| 0 <= s < |r.st.branch| && r.st.branch[s].Full? && r.st.branch[s].id == id;
        assert InBranch(r.st.branch, id, r.st.branch[s].data);
        assert Holds(r.st, id, r.st.branch[s].data);
      }
      var d :| Holds(r.st, id, d);
      if id != c.requested {
        assert Holds(st, id, d);
        if InBranch(st.branch, id, d) {
          var s :| 0 <= s < |st.branch| && st.branch[s] == Full(id, d);
          assert st.branch[s].id in Ids(st.branch);
        }
      }
    }
  }

  /** A new block goes to the stash only if the root slots are taken. */
  lemma NewInStash(c: Context, st: Store, buffer: Option<Data>, newLeaf: nat, order: seq<nat>)
    requires Ready(c, st) && ScanOrder(c, st, order) && ValidLeaf(c.L, newLeaf) && buffer.Some?
    requires c.requested != 0 && !Contains(st, c.requested)
    ensures var r := Traverse(c, st, Write, buffer, newLeaf, order);
            |r.st.branch| == Start(c.B, c.L) >= 1 && (c.requested in r.st.stash ==> r.st.branch[0].Full?)
  {
    WalkFromStart(c, st);
    NotOnBranch(c, st);
    TailReachedIff(c, st, order);
    ClearedStore(c, st, order);
    ReachBounds(c, newLeaf);
  }

  lemma NotOnBranch(c: Context, st: Store)
    requires Ready(c, st) && !Contains(st, c.requested)
    ensures Walk(c, st, 0).Missing?
  {
    WalkFromStart(c, st);
    var w := Walk(c, st, 0);
    assert w.Found? ==> Holds(w.st, c.requested, w.st.branch[w.at].data);
  }

  /** One access grows the stash by at most the number of slots on a branch. */
  lemma StashGrowth(c: Context, st: Store, op: Operation, buffer: Option<Data>, newLeaf: nat, order: seq<nat>)
    requires Ready(c, st) && ScanOrder(c, st, order) && ValidLeaf(c.L, newLeaf)
    requires (op.Clear? <==> buffer.None?) && !ReadsNull(c, st, op, order)
    requires op.Write? || Contains(st, c.requested)
    requires c.requested != 0
    ensures |Traverse(c, st, op, buffer, newLeaf, order).st.stash| <= |st.stash| + Start(c.B, c.L)
  {
    hide *;
    ReadySize(c, st);
    TraverseCorrect(c, st, op, buffer, newLeaf, order);
    var r := Traverse(c, st, op, buffer, newLeaf, order);
    if !Contains(st, c.requested) {
      NewInStash(c, st, buffer, newLeaf, order);
    }
    IdsAfter(c, st, op, buffer, r);
    GrowthBound(c, st, op, buffer, r);
  }

  lemma GrowthBound(c: Context, st: Store, op: Operation, buffer: Option<Data>, r: Result)
    requires |st.branch| == Start(c.B, c.L)
    requires Achieves(c, st, op, buffer, r)
    requires r.st.stash.Keys <= st.stash.Keys + Ids(st.branch) + {c.requested}
    requires !Contains(st, c.requested) && c.requested in r.st.stash ==> |r.st.branch| >= 1 && r.st.branch[0].Full?
    requires r.st.stash.Keys + Ids(r.st.branch) <= st.stash.Keys + Ids(st.branch) + {c.requested}
    ensures |r.st.stash| <= |st.stash| + Start(c.B, c.L)
  {
    hide Achieves, Ids, Start, Contains;
    var known := st.stash.Keys + Ids(st.branch);
    AtMostLength(st.branch);
    UnionSize(known, st.stash.Keys, Ids(st.branch));
    assert |st.stash.Keys| == |st.stash| && |r.st.stash.Keys| == |r.st.stash|;
    if c.requested in known || c.requested !in r.st.stash {
      assert r.st.stash.Keys <= known;
      UnionSize(r.st.stash.Keys, known, {});
    } else {
      RequestedKnown(c, st);
      var first := r.st.branch[0].id;
      FirstApart(c, st, op, buffer, r);
      UnionSize(r.st.stash.Keys + {first}, known, {c.requested});
      assert |r.st.stash.Keys + {first}| == |r.st.stash.Keys| + 1;
    }
  }

  lemma FirstApart(c: Context, st: Store, op: Operation, buffer: Option<Data>, r: Result)
    requires Achieves(c, st, op, buffer, r) && |r.st.branch| >= 1 && r.st.branch[0].Full?
    ensures r.st.branch[0].id in Ids(r.st.branch) && r.st.branch[0].id !in r.st.stash
  {
  }

  lemma RequestedKnown(c: Context, st: Store)
    requires c.requested !in st.stash.Keys + Ids(st.branch)
    ensures !Contains(st, c.requested)
  {
    forall d
      ensures !Holds(st, c.requested, d)
    {
    }
  }
}
