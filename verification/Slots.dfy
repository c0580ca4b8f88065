/** The contents of a fetched branch and of the stash as the traversal sees them, and the
    layout of a branch: `B` slots per bucket, buckets from the root down. */
module Slots {
  import opened Bytes

  /** A slot whose block id is 0 is free, whatever bytes it carries. */
  datatype Slot = Free | Full(id: nat, data: Data)

  /** What a branch and the stash hold between two steps of a traversal. */
  datatype Store = Store(branch: seq<Slot>, stash: map<nat, Data>)

  function MakeSlot(id: nat, data: Data): Slot {
    if id == 0 then Free else Full(id, data)
  }

  /** The index of the first slot of bucket `k`, which is `k * B`. */
  function Start(B: nat, k: nat): nat {
    if k == 0 then 0 else Start(B, k - 1) + B
  }

  lemma {:induction false} StartIsProduct(B: nat, k: nat)
    ensures Start(B, k) == k * B
  {
    if k > 0 {
      StartIsProduct(B, k - 1);
      assert k * B == (k - 1) * B + B;
    }
  }

  lemma StartNext(B: nat, k: nat)
    ensures Start(B, 0) == 0 && Start(B, k + 1) == Start(B, k) + B
  {
  }

  lemma {:induction false} StartMonotone(B: nat, j: nat, k: nat)
    requires j <= k
    ensures Start(B, j) <= Start(B, k)
    ensures j < k ==> Start(B, j) + B <= Start(B, k)
    decreases k
  {
    if j < k {
      StartMonotone(B, j, k - 1);
    }
  }

  predicate InBucket(B: nat, k: nat, s: nat) {
    Start(B, k) <= s < Start(B, k + 1)
  }

  /** The bucket of a slot. */
  lemma {:induction false} BucketOf(B: nat, L: nat, s: nat) returns (k: nat)
    requires s < Start(B, L)
    ensures k < L && InBucket(B, k, s)
  {
    if s >= Start(B, L - 1) {
      k := L - 1;
    } else {
      k := BucketOf(B, L - 1, s);
    }
  }

  lemma BucketUnique(B: nat, j: nat, k: nat, s: nat)
    requires InBucket(B, j, s) && InBucket(B, k, s)
    ensures j == k
  {
    if j < k {
      StartMonotone(B, j + 1, k);
    } else if k < j {
      StartMonotone(B, k + 1, j);
    }
  }

  /** The first free slot from `j` on, or `hi` when there is none below `hi`. */
  function FindFree(br: seq<Slot>, j: nat, hi: nat): (r: nat)
    requires hi <= |br|
    ensures j <= hi ==> j <= r <= hi
    ensures r < hi ==> br[r].Free?
    ensures forall t :: j <= t < r && t < hi ==> br[t].Full?
    decreases hi - j
  {
    if j >= hi then hi
    else if br[j].Free? then j
    else FindFree(br, j + 1, hi)
  }

  /** One more than the last free slot below `j`, or 0 when there is none. */
  function FindFreeDown(br: seq<Slot>, j: nat): (r: nat)
    requires j <= |br|
    ensures r <= j
    ensures r > 0 ==> br[r - 1].Free?
    ensures forall t :: r <= t < j ==> br[t].Full?
  {
    if j == 0 then 0
    else if br[j - 1].Free? then j
    else FindFreeDown(br, j - 1)
  }

  ghost predicate InBranch(br: seq<Slot>, id: nat, data: Data) {
    exists s :: 0 <= s < |br| && br[s] == Full(id, data)
  }

  /** The store holds the pair (id, data), in the branch or in the stash. */
  ghost predicate Holds(st: Store, id: nat, data: Data) {
    (id in st.stash && st.stash[id] == data) || InBranch(st.branch, id, data)
  }

  ghost predicate SameContents(a: Store, b: Store) {
    forall id, data :: Holds(a, id, data) <==> Holds(b, id, data)
  }

  ghost predicate Contains(st: Store, id: nat) {
    exists data :: Holds(st, id, data)
  }

  /** No id has two copies. */
  ghost predicate Unique(st: Store) {
    UniqueIn(st.branch) && Separate(st)
  }

  /** No block of the branch is in the stash as well. */
  ghost predicate Separate(st: Store) {
    forall s :: 0 <= s < |st.branch| && st.branch[s].Full? ==> st.branch[s].id !in st.stash
  }

  ghost predicate UniqueIn(br: seq<Slot>) {
    forall s, t | 0 <= s < |br| && 0 <= t < |br| && br[s].Full? && br[t].Full? && br[s].id == br[t].id :: s == t
  }

  /** Moving a block to a free slot keeps the contents. */
  lemma MoveKeepsContents(st: Store, s: nat, j: nat)
    requires s < |st.branch| && j < |st.branch| && st.branch[s].Full? && st.branch[j].Free?
    ensures SameContents(st, st.(branch := st.branch[s := Free][j := st.branch[s]]))
  {
    var br := st.branch[s := Free][j := st.branch[s]];
    forall id, data
      ensures InBranch(st.branch, id, data) <==> InBranch(br, id, data)
    {
      if InBranch(st.branch, id, data) {
        var t :| 0 <= t < |st.branch| && st.branch[t] == Full(id, data);
        assert br[if t == s then j else t] == Full(id, data);
      }
      if InBranch(br, id, data) {
        var t :| 0 <= t < |br| && br[t] == Full(id, data);
        assert st.branch[if t == j then s else t] == Full(id, data);
      }
    }
  }

  /** Evicting a block to the stash keeps the contents, unless the stash had another copy. */
  lemma EvictKeepsContents(st: Store, s: nat)
    requires s < |st.branch| && st.branch[s].Full? && st.branch[s].id !in st.stash
    ensures SameContents(st, Store(st.branch[s := Free], st.stash[st.branch[s].id := st.branch[s].data]))
  {
    var slot := st.branch[s];
    var st' := Store(st.branch[s := Free], st.stash[slot.id := slot.data]);
    forall id, data
      ensures Holds(st, id, data) <==> Holds(st', id, data)
    {
      if InBranch(st.branch, id, data) {
        var t :| 0 <= t < |st.branch| && st.branch[t] == Full(id, data);
        if t != s {
          assert st'.branch[t] == Full(id, data);
        }
      }
      if InBranch(st'.branch, id, data) {
        var t :| 0 <= t < |st'.branch| && st'.branch[t] == Full(id, data);
        assert st.branch[t] == Full(id, data);
      }
    }
  }

  /** Putting a new pair into a free slot adds exactly that pair. */
  lemma InsertInBranch(st: Store, j: nat, id: nat, data: Data)
    requires j < |st.branch| && st.branch[j].Free? && !Contains(st, id)
    ensures Unique(st) <==> Unique(st.(branch := st.branch[j := Full(id, data)]))
    ensures Separate(st) ==> Separate(st.(branch := st.branch[j := Full(id, data)]))
    ensures forall i, d :: Holds(st.(branch := st.branch[j := Full(id, data)]), i, d) <==>
                           Holds(st, i, d) || (i == id && d == data)
  {
    hide Unique, Separate;
    InsertUnique(st, j, id, data);
    forall i, d
      ensures Holds(st.(branch := st.branch[j := Full(id, data)]), i, d) <==> Holds(st, i, d) || (i == id && d == data)
    {
      InsertHolds(st.branch, j, id, data, i, d);
    }
  }

  lemma InsertHolds(br: seq<Slot>, j: nat, id: nat, data: Data, i: nat, d: Data)
    requires j < |br| && br[j].Free?
    ensures InBranch(br[j := Full(id, data)], i, d) <==> InBranch(br, i, d) || (i == id && d == data)
  {
    var br' := br[j := Full(id, data)];
    if InBranch(br, i, d) {
      var s :| 0 <= s < |br| && br[s] == Full(i, d);
      assert br'[s] == Full(i, d);
    }
    if InBranch(br', i, d) {
      var s :| 0 <= s < |br'| && br'[s] == Full(i, d);
      assert s != j ==> br[s] == Full(i, d);
    }
    assert br'[j] == Full(id, data);
  }

  lemma InsertUnique(st: Store, j: nat, id: nat, data: Data)
    requires j < |st.branch| && st.branch[j].Free? && !Contains(st, id)
    ensures Unique(st) <==> Unique(st.(branch := st.branch[j := Full(id, data)]))
    ensures Separate(st) ==> Separate(st.(branch := st.branch[j := Full(id, data)]))
  {
    var br' := st.branch[j := Full(id, data)];
    NotContained(st, id);
    assert forall s :: 0 <= s < |st.branch| && s != j ==> br'[s] == st.branch[s];
    if UniqueIn(br') {
      forall s, t | 0 <= s < |st.branch| && 0 <= t < |st.branch| && st.branch[s].Full? && st.branch[t].Full? &&
          st.branch[s].id == st.branch[t].id
        ensures s == t
      {
        assert br'[s] == st.branch[s] && br'[t] == st.branch[t];
      }
    }
    if Separate(st.(branch := br')) {
      forall s | 0 <= s < |st.branch| && st.branch[s].Full?
        ensures st.branch[s].id !in st.stash
      {
        assert br'[s] == st.branch[s];
      }
    }
  }

  lemma NotContained(st: Store, id: nat)
    requires !Contains(st, id)
    ensures id !in st.stash
    ensures forall s :: 0 <= s < |st.branch| && st.branch[s].Full? ==> st.branch[s].id != id
  {
    assert id in st.stash ==> Holds(st, id, st.stash[id]);
    forall s | 0 <= s < |st.branch| && st.branch[s].Full?
      ensures st.branch[s].id != id
    {
      assert InBranch(st.branch, st.branch[s].id, st.branch[s].data);
      assert Holds(st, st.branch[s].id, st.branch[s].data);
    }
  }

  lemma InsertInStash(st: Store, id: nat, data: Data)
    requires !Contains(st, id)
    ensures Unique(st) <==> Unique(st.(stash := st.stash[id := data]))
    ensures Separate(st) ==> Separate(st.(stash := st.stash[id := data]))
    ensures forall i, d :: Holds(st.(stash := st.stash[id := data]), i, d) <==>
                           Holds(st, i, d) || (i == id && d == data)
  {
    NotContained(st, id);
    forall i, d
      ensures Holds(st.(stash := st.stash[id := data]), i, d) <==> Holds(st, i, d) || (i == id && d == data)
    {
      assert InBranch(st.branch, i, d) ==> Holds(st, i, d);
    }
  }

  /** Erasing a stash entry removes the id when the branch has no copy. */
  lemma EraseFromStash(st: Store, id: nat)
    requires forall s :: 0 <= s < |st.branch| && st.branch[s].Full? ==> st.branch[s].id != id
    ensures Unique(st) ==> Unique(st.(stash := st.stash - {id}))
    ensures Separate(st) ==> Separate(st.(stash := st.stash - {id}))
    ensures !Contains(st.(stash := st.stash - {id}), id)
    ensures forall i, d :: Holds(st.(stash := st.stash - {id}), i, d) <==> Holds(st, i, d) && i != id
  {
  }

  /** `order` lists every key once: some order in which an unordered map may be traversed. */
  ghost predicate Enumerates<T>(order: seq<T>, keys: set<T>) {
    && (forall i, j | 0 <= i < |order| && 0 <= j < |order| && order[i] == order[j] :: i == j)
    && (forall i :: 0 <= i < |order| ==> order[i] in keys)
    && (forall k :: k in keys ==> k in order)
  }

  lemma EnumerateOneMore<T>(order: seq<T>, keys: set<T>, k: T)
    requires Enumerates(order, keys) && k !in keys
    ensures Enumerates(order + [k], keys + {k})
  {
    assert (order + [k])[|order|] == k;
    forall x | x in keys
      ensures x in order + [k]
    {
      assert x in order;
    }
  }

  /** Some order in which a map's keys may be enumerated. */
  method EnumerateKeys<K(==)>(keys: set<K>) returns (order: seq<K>)
    ensures Enumerates(order, keys)
  {
    order := [];
    var rest := keys;
    while rest != {}
      invariant rest <= keys && Enumerates(order, keys - rest)
      decreases rest
    {
      var k :| k in rest;
      EnumerateOneMore(order, keys - rest, k);
      assert keys - (rest - {k}) == (keys - rest) + {k};
      order, rest := order + [k], rest - {k};
    }
    assert keys - rest == keys;
  }
}
