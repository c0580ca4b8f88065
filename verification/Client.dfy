/** src/single_client.cpp: the client that owns the key map, the position map and the stash. */
module Client {
  import opened Arithmetic
  import opened Paths
  import opened Wrappers
  import opened Bytes
  import opened Slots
  import opened Configuration
  import opened Blocks
  import opened Branches
  import opened BranchLoop
  import opened Replacement
  import opened StashScan
  import opened Traversal
  import opened Tree
  import opened PathServer
  import opened Refinement
  import opened Machine
  import Lockstep
  import opened Ledgers
  import opened IdAllocation
  import opened StateFile
  import opened KeyOrder

  /** A branch as the traversal sees it: blocks with id 0 are free slots, whatever their data. */
  function ViewAll(s: seq<Plain>): (v: seq<Slot>)
    ensures |v| == |s|
    ensures forall i :: 0 <= i < |s| ==> v[i] == MakeSlot(s[i].id, s[i].data)
  {
    seq(|s|, i requires 0 <= i < |s| => MakeSlot(s[i].id, s[i].data))
  }

  /** What a stored block reads as to the client that holds the key. */
  function PlainOf(cfg: Config, cipher: Cipher, s: Wire): Plain
    requires cfg.Legal()
  {
    if |cipher.dec(s)| == cfg.blockSize then Open(cfg, cipher, s) else Plain(0, [])
  }

  function OpenSlot(cfg: Config, cipher: Cipher, s: Wire): Slot
    requires cfg.Legal()
  {
    var p := PlainOf(cfg, cipher, s);
    MakeSlot(p.id, p.data)
  }

  ghost function OpenAll(cfg: Config, cipher: Cipher, blocks: seq<Wire>): (p: seq<Plain>)
    requires cfg.Legal()
    ensures |p| == |blocks| && forall i :: 0 <= i < |p| ==> p[i] == PlainOf(cfg, cipher, blocks[i])
  {
    seq(|blocks|, i requires 0 <= i < |blocks| => PlainOf(cfg, cipher, blocks[i]))
  }

  ghost function SealAll(cfg: Config, cipher: Cipher, p: seq<Plain>): (blocks: seq<Wire>)
    requires cfg.Legal() && forall i :: 0 <= i < |p| ==> Sized(cfg, p[i])
    ensures |blocks| == |p| && forall i :: 0 <= i < |p| ==> blocks[i] == Seal(cfg, cipher, p[i])
  {
    seq(|p|, i requires 0 <= i < |p| => Seal(cfg, cipher, p[i]))
  }

  function Opener(cfg: Config, cipher: Cipher): Wire -> Slot
    requires cfg.Legal()
  {
    s => OpenSlot(cfg, cipher, s)
  }

  class SingleClient {
    const cfg: Config
    const cipher: Cipher
    const server: Server

    // what the two random generators yield: for leaves, request ids and the data of the first blocks, and
    // for the data of freed blocks
    const random: nat -> nat
    const noise: (nat, nat) -> byte
    var drawn: nat
    var noised: nat

    var keyToBlockId: map<Key, nat>
    var positionMap: map<nat, nat>
    var stash: map<nat, Data>
    var branch: Branch

    var stateFile: seq<byte>

    // what the client stands for, and the book-keeping of its random draws
    ghost var contents: map<Key, Data>
    ghost var mapped: map<nat, nat>
    ghost var sent: seq<nat>

    constructor (cfg: Config, cipher: Cipher, server: Server, random: nat -> nat, noise: (nat, nat) -> byte)
      requires cfg.Legal()
      ensures this.cfg == cfg && this.cipher == cipher && this.server == server
      ensures this.random == random && this.noise == noise && drawn == 0 && noised == 0
      ensures keyToBlockId == map[] && positionMap == map[] && stash == map[] && contents == map[]
      ensures mapped == map[] && sent == []
    {
      this.cfg, this.cipher, this.server, this.random, this.noise := cfg, cipher, server, random, noise;
      drawn, noised := 0, 0;
      keyToBlockId, positionMap, stash := map[], map[], map[];
      branch := new Branch(cfg, 0);
      stateFile := [];
      contents, mapped, sent := map[], map[], [];
    }

    /** Draw number `n`, in the range 1..2^(L-1) */
    function LeafOf(n: nat): nat {
      Wrap(random(n), Pow2(if cfg.levels == 0 then 0 else cfg.levels - 1)) + 1
    }

    /** All draws so far */
    ghost function Draws(): seq<nat>
      reads this`drawn
    {
      seq(drawn, n requires n >= 0 => LeafOf(n))
    }

    /** `RAND()` */
    method Rand() returns (leaf: nat)
      requires cfg.Legal()
      modifies this`drawn
      ensures ValidLeaf(cfg.levels, leaf) && leaf >= 1 && leaf == LeafOf(old(drawn)) && drawn == old(drawn) + 1
      ensures Draws() == old(Draws()) + [leaf]
    {
      WrapBelow(random(drawn), Pow2(cfg.levels - 1));
      leaf := LeafOf(drawn);
      drawn := drawn + 1;
    }

    /** Every leaf is in the range of the draws. */
    lemma EveryLeafDrawn(leaf: nat, n: nat)
      requires cfg.Legal() && ValidLeaf(cfg.levels, leaf)
      ensures random(n) == leaf - 1 ==> LeafOf(n) == leaf
    {
      WrapFits(leaf - 1, Pow2(cfg.levels - 1));
    }

    /** Filler number `k` */
    function NoiseOf(k: nat): (data: Data)
      requires cfg.Legal()
      ensures |data| == cfg.DataBytes() && forall i :: 0 <= i < |data| ==> data[i] == noise(k, i)
    {
      seq(cfg.DataBytes(), i requires i >= 0 => noise(k, i))
    }

    ghost function NoiseBetween(from: nat, to: nat): set<Data>
      requires cfg.Legal()
    {
      set k: nat | from <= k < to :: NoiseOf(k)
    }

    method RandomData() returns (data: Data)
      requires cfg.Legal()
      modifies this`noised
      ensures data == NoiseOf(old(noised)) && noised == old(noised) + 1
    {
      data := [];
      while |data| < cfg.DataBytes()
        invariant |data| <= cfg.DataBytes() && data == NoiseOf(noised)[..|data|]
      {
        data := data + [noise(noised, |data|)];
      }
      noised := noised + 1;
    }

    /** What the free slots of the branch are filled with */
    ghost function Fillers(): set<Data>
      reads this`branch, branch.blocks, branch.buffers
    {
      if branch.Valid() then FillersOf(branch.View()) else {}
    }

    /** The fillers are among the given ones and those drawn since. */
    ghost predicate Refilled(fillers: set<Data>, from: nat)
      requires cfg.Legal()
      reads this`branch, this`noised, branch.blocks, branch.buffers
    {
      from <= noised && Fillers() <= fillers + NoiseBetween(from, noised)
    }

    lemma RefilledNow()
      requires cfg.Legal()
      ensures Refilled(Fillers(), noised)
    {
    }

    lemma RefilledJoin(before: set<Data>, from: nat, between: set<Data>, since: nat, extra: set<Data>)
      requires cfg.Legal() && from <= since && between <= before + NoiseBetween(from, since)
      requires Refilled(between + extra, since)
      ensures Refilled(before + extra, from)
    {
      forall d | d in NoiseBetween(from, since) || d in NoiseBetween(since, noised)
        ensures d in NoiseBetween(from, noised)
      {
      }
    }

    lemma RefilledIs(before: set<Data>, from: nat)
      requires cfg.Legal() && Refilled(before, from)
      ensures from <= noised && Fillers() <= before + NoiseBetween(from, noised)
    {
    }

    lemma RefilledMore(before: set<Data>, from: nat, extra: set<Data>)
      requires cfg.Legal() && Refilled(before, from)
      ensures Refilled(before + extra, from)
    {
    }

    ghost function Here(): Store
      reads this`branch, this`stash, branch.blocks, branch.buffers
    {
      Store(if branch.Valid() then ViewAll(branch.View()) else [], stash)
    }

    /** The branch holds blocks of this tree, the stash data of their size. */
    ghost predicate AllSized()
      requires cfg.Legal()
      reads this`branch, this`stash, branch.blocks
    {
      && branch.Valid() && branch.cfg == cfg
      && (forall id :: id in stash ==> |stash[id]| == cfg.DataBytes())
    }

    /** The position map is as it was when the traversal `c` began. */
    ghost predicate Mapped(c: Context)
      reads this`positionMap
    {
      && cfg.Legal() && c.Valid()
      && c.L == cfg.levels && c.B == cfg.blocks && c.positions == positionMap && positionMap[c.requested] == c.leaf
      && (forall id :: id in positionMap ==> id < cfg.IdSpace())
    }

    /** The traversal `c` is under way, and its branch is there. */
    ghost predicate Underway(c: Context)
      reads this`branch, this`stash, this`positionMap, branch.blocks
    {
      Mapped(c) && branch.Length() == Start(c.B, c.L) && AllSized()
    }

    ghost predicate Traversing(c: Context)
      reads this`branch, this`stash, this`positionMap, branch.blocks, branch.buffers
    {
      Underway(c) && Fitting(c, Here())
    }

    lemma UnderwayFacts(c: Context)
      requires Underway(c)
      ensures Mapped(c) && cfg.Legal() && c.Valid() && c.L == cfg.levels && c.B == cfg.blocks
      ensures c.positions == positionMap
      ensures ValidLeaf(c.L, c.leaf) && c.requested in positionMap && positionMap[c.requested] == c.leaf
      ensures forall id :: id in positionMap ==> id < cfg.IdSpace()
      ensures AllSized() && branch.Valid() && branch.Length() == Start(c.B, c.L) == |Here().branch|
    {
      HereFacts();
    }

    lemma TraversingFacts(c: Context)
      requires Traversing(c)
      ensures Underway(c) && Fitting(c, Here()) && cfg.Legal() && AllSized() && c.Valid()
      ensures branch.Valid() && branch.Length() == |Here().branch| == Start(c.B, c.L) && Here().stash == stash
      ensures forall i :: 0 <= i < branch.Length() ==>
                Here().branch[i] == if branch.Id(i) == 0 then Free else Full(branch.Id(i), branch.Data(i))
    {
      HereFacts();
    }

    lemma TraversingAgain(c: Context)
      requires Underway(c) && Fitting(c, Here())
      ensures Traversing(c)
    {
    }

    lemma ReadyHere(c: Context)
      requires Traversing(c) && Unique(Here())
      ensures Ready(c, Here())
    {
    }

    lemma UnderwayAgain(c: Context)
      requires Mapped(c) && cfg.Legal() && AllSized() && branch.Length() == Start(c.B, c.L)
      ensures Underway(c)
    {
    }

    lemma HereFacts()
      requires cfg.Legal() && AllSized()
      ensures branch.Valid() && |Here().branch| == branch.Length() && Here().stash == stash
      ensures Here() == Store(Here().branch, stash)
      ensures forall i :: 0 <= i < branch.Length() ==>
                Here().branch[i] == (if branch.Id(i) == 0 then Free else Full(branch.Id(i), branch.Data(i))) &&
                branch.Id(i) < cfg.IdSpace() && |branch.Data(i)| == cfg.DataBytes()
      ensures forall id :: id in stash ==> |stash[id]| == cfg.DataBytes()
    {
      hide Branch.Valid, Branch.View, Config.Legal, Config.DataBytes, Config.IdSpace;
    }

    /** Where the data of a free slot comes from: another free slot, the random generator, or a block that
        has just been cleared or that has id 0. */
    ghost predicate Explained(d: Data, before: set<Data>, from: nat, op: Operation, buffer: Option<Data>,
                              requested: nat, st: Store)
      requires cfg.Legal()
      reads this`noised
    {
      || d in before
      || (from <= noised && d in NoiseBetween(from, noised))
      || ((requested == 0 || op.Clear?) && (buffer == Some(d) || Holds(st, requested, d)))
    }

    ghost predicate AllExplained(fillers: set<Data>, before: set<Data>, from: nat, op: Operation, buffer: Option<Data>,
                                 requested: nat, st: Store)
      requires cfg.Legal()
      reads this`noised
    {
      from <= noised && forall d :: d in fillers ==> Explained(d, before, from, op, buffer, requested, st)
    }

    lemma RefilledExplains(before: set<Data>, from: nat, extra: set<Data>, op: Operation, buffer: Option<Data>,
                           requested: nat, st: Store)
      requires cfg.Legal() && Refilled(before + extra, from)
      requires extra != {} ==> requested == 0 || op.Clear?
      requires forall d :: d in extra ==> buffer == Some(d) || Holds(st, requested, d)
      ensures AllExplained(Fillers(), before, from, op, buffer, requested, st)
    {
      hide Holds;
    }

    lemma ExplainedJoin(fillers: set<Data>, before: set<Data>, from: nat, between: set<Data>, since: nat, op: Operation,
                        buffer: Option<Data>, requested: nat, st: Store)
      requires cfg.Legal() && from <= since && between <= before + NoiseBetween(from, since)
      requires AllExplained(fillers, between, since, op, buffer, requested, st)
      ensures AllExplained(fillers, before, from, op, buffer, requested, st)
    {
      hide Holds;
      forall d | d in NoiseBetween(from, since) || d in NoiseBetween(since, noised)
        ensures d in NoiseBetween(from, noised)
      {
      }
    }

    /** Lines 587-599, at the width of this client's block ids */
    method IntersectionBucket(leaf1: nat, leaf2: nat) returns (idx: nat)
      requires cfg.Legal() && ValidLeaf(cfg.levels, leaf1) && ValidLeaf(cfg.levels, leaf2)
      ensures idx == Meet(cfg.levels, leaf1, leaf2) < cfg.levels
    {
      cfg.IdsSuffice();
      idx := FindIntersectionBucket(cfg.levels, cfg.IdSpace(), leaf1, leaf2);
    }

    /** Lines 491-512 */
    method VisitSlot(ghost c: Context, i: nat, requested: nat)
      requires Underway(c) && requested == c.requested
      requires i < branch.Length() && branch.Id(i) != 0 && branch.Id(i) in positionMap
      modifies this`stash, this`noised, branch.buffers, branch.boxes
      ensures Underway(c)
      ensures Here() == Visit(c, old(Here()), i)
      ensures Refilled(old(Fillers()), old(noised))
    {
      hide *;
      UnderwayFacts(c);
      HereFacts();
      ghost var st, data := Here(), branch.Data(i);
      var id := branch.Id(i);
      DepthBounds(c, id);
      DepthIs(c, id);
      var idx := IntersectionBucket(positionMap[requested], positionMap[id]);
      var hi := SlotIndex(idx + 1);
      var j := FirstFree(idx, hi);
      VisitIs(c, st, i, id, data, hi, j);
      if j < hi {
        SwapSlots(i, j);
      } else {
        Evict(i);
      }
      UnderwayAgain(c);
    }

    /** Lines 493-501: the first free slot of bucket `idx`, or `hi` when it is full. */
    method FirstFree(idx: nat, hi: nat) returns (j: nat)
      requires cfg.Legal() && AllSized() && hi == Start(cfg.blocks, idx + 1) <= branch.Length()
      ensures j == FindFree(Here().branch, Start(cfg.blocks, idx), hi)
    {
      hide Branch.Valid, Branch.View, Config.Legal, Config.DataBytes, Config.IdSpace, Block.Valid;
      j := SlotIndex(idx);
      while j < hi && branch.Id(j) != 0
        invariant Start(cfg.blocks, idx) <= j <= hi
        invariant FindFree(Here().branch, Start(cfg.blocks, idx), hi) == FindFree(Here().branch, j, hi)
      {
        j := j + 1;
      }
    }

    /** Lines 474-479: one more than the last free slot below `hi`, or 0. */
    method LastFree(hi: nat) returns (j: nat)
      requires cfg.Legal() && AllSized() && hi <= branch.Length()
      ensures j == FindFreeDown(Here().branch, hi) <= hi
    {
      hide Branch.Valid, Branch.View, Config.Legal, Config.DataBytes, Config.IdSpace, Block.Valid;
      j := hi;
      while j > 0 && branch.Id(j - 1) != 0
        invariant 0 <= j <= hi
        invariant FindFreeDown(Here().branch, hi) == FindFreeDown(Here().branch, j)
      {
        j := j - 1;
      }
    }

    /** `current_block.swap(branch[j])` */
    method SwapSlots(i: nat, j: nat)
      requires cfg.Legal() && AllSized() && i < branch.Length() && j < branch.Length()
      modifies branch.buffers, branch.boxes
      ensures AllSized()
      ensures Here() == old(Here().(branch := Here().branch[i := Here().branch[j]][j := Here().branch[i]]))
      ensures Refilled(old(Fillers()), old(noised))
      ensures branch.View() == old(branch.View()[i := branch.View()[j]][j := branch.View()[i]])
    {
      hide Branch.Valid, Branch.View, Config.Legal, Config.DataBytes, Config.IdSpace, Block.Valid;
      branch.Swap(i, j);
      SwapFillers(old(branch.View()), i, j);
      assert Here().branch == old(Here().branch[i := Here().branch[j]][j := Here().branch[i]]);
    }

    /** Lines 506-511: the block goes to the stash, its slot is freed and overwritten. */
    method Evict(i: nat)
      requires cfg.Legal() && AllSized() && i < branch.Length()
      modifies this`stash, this`noised, branch.buffers, branch.boxes
      ensures AllSized()
      ensures Here() == old(Store(Here().branch[i := Free], stash[branch.Id(i) := branch.Data(i)]))
      ensures Refilled(old(Fillers()), old(noised))
      ensures branch.View() == old(branch.View())[i := Plain(0, NoiseOf(old(noised)))] && noised == old(noised) + 1
    {
      hide *;
      HereFacts();
      FillersHere();
      SizedFacts();
      stash := stash[branch.Id(i) := branch.Data(i)];
      var data := RandomData();
      branch.Free(i, data);
      SizedAgain();
      ViewAllSet(old(branch.View()), i, Plain(0, data));
      FillersHere();
      RefilledBy(old(branch.View()), i, data);
      HereFacts();
    }

    lemma SizedFacts()
      requires cfg.Legal() && AllSized()
      ensures branch.Valid() && branch.cfg == cfg && |branch.View()| == branch.Length()
      ensures forall id :: id in stash ==> |stash[id]| == cfg.DataBytes()
      ensures forall i :: 0 <= i < branch.Length() ==>
                branch.Id(i) == branch.View()[i].id && branch.Data(i) == branch.View()[i].data
    {
    }

    lemma SizedAgain()
      requires cfg.Legal() && branch.Valid() && branch.cfg == cfg
      requires forall id :: id in stash ==> |stash[id]| == cfg.DataBytes()
      ensures AllSized()
    {
    }

    /** One slot has been filled with the last drawn data. */
    lemma RefilledBy(before: seq<Plain>, i: nat, data: Data)
      requires cfg.Legal() && i < |before| && noised > 0 && data == NoiseOf(noised - 1)
      requires Fillers() == FillersOf(before[i := Plain(0, data)])
      ensures Refilled(FillersOf(before), noised - 1)
    {
      SetFillers(before, i, Plain(0, data));
    }

    /** The slot at which a bucket starts, `idx * BLOCKS_PER_BUCKET`. */
    method SlotIndex(idx: nat) returns (j: nat)
      ensures j == Start(cfg.blocks, idx)
    {
      StartIsProduct(cfg.blocks, idx);
      j := idx * cfg.blocks;
    }

    /** Lines 468-474, 531-537 and 571-575: draw the new leaf of the requested block; the result
        bounds the slots it may take. */
    method Remap(ghost c: Context, requested: nat) returns (hi: nat, ghost newLeaf: nat)
      requires Mapped(c) && requested == c.requested
      modifies this`positionMap, this`drawn
      ensures ValidLeaf(cfg.levels, newLeaf) && ValidLeaf(c.L, c.leaf) && c.L == cfg.levels
      ensures hi == Reach(c, newLeaf) <= Start(c.B, c.L)
      ensures positionMap == old(positionMap)[requested := newLeaf]
      ensures Draws() == old(Draws()) + [newLeaf]
    {
      hide Config.Legal, Config.IdSpace;
      var leaf := Rand();
      newLeaf := leaf;
      ReachBounds(c, newLeaf);
      var idx := IntersectionBucket(positionMap[requested], leaf);
      positionMap := positionMap[requested := leaf];
      hi := SlotIndex(idx + 1);
    }

    /** Lines 460-490: the requested block is in slot `i`. */
    method ReplaceRequested(ghost c: Context, i: nat, requested: nat, op: Operation, buffer: Option<Data>)
      returns (out: Option<Data>, ghost newLeaf: nat)
      requires Underway(c) && requested == c.requested && i < branch.Length() && branch.Id(i) == requested != 0
      requires op.Clear? <==> buffer.None?
      requires buffer.Some? ==> |buffer.value| == cfg.DataBytes()
      modifies this`stash, this`positionMap, this`drawn, this`noised, branch.buffers, branch.boxes
      ensures AllSized()
      ensures ValidLeaf(cfg.levels, newLeaf) && positionMap == old(positionMap)[requested := newLeaf]
      ensures Draws() == old(Draws()) + [newLeaf]
      ensures Reach(c, newLeaf) <= branch.Length()
      ensures Here() == Replace(c, old(Here()), i, op, buffer.GetOr([]), newLeaf)
      ensures out == if op.Read? then Some(old(branch.Data(i))) else buffer
      ensures Refilled(old(Fillers()) + (if op.Clear? then {old(branch.Data(i))} else {}), old(noised))
    {
      hide *;
      UnderwayFacts(c);
      HereFacts();
      ghost var st := Here();
      out := ApplyOperation(i, op, buffer);
      ghost var f0, n0, extra := old(Fillers()), old(noised), if op.Clear? then {old(branch.Data(i))} else {};
      RefilledIs(f0 + extra, n0);
      ghost var data := branch.Data(i);
      ghost var f1, n1 := Fillers(), noised;
      var hi;
      hi, newLeaf := Remap(c, requested);
      RelocateBlock(i, hi);
      assert f1 + {} == f1 && f0 + extra + {} == f0 + extra;
      RefilledJoin(f0 + extra, n0, f1, n1, {});
      ReplaceIs(c, st, i, op, buffer.GetOr([]), newLeaf, data);
    }

    /** Lines 474-489 */
    method RelocateBlock(i: nat, hi: nat)
      requires cfg.Legal() && AllSized() && i < branch.Length() && hi <= branch.Length()
      modifies this`stash, this`noised, branch.buffers, branch.boxes
      ensures AllSized()
      ensures Here() == Relocate(old(Here()), i, hi, old(branch.Data(i)))
      ensures Refilled(old(Fillers()), old(noised))
    {
      hide *;
      HereFacts();
      ghost var st, data := Here(), branch.Data(i);
      var j := LastFree(hi);
      RelocateCases(st, i, hi, data, j);
      if j > 0 {
        SwapSlots(i, j - 1);
      } else {
        Evict(i);
      }
    }

    /** Lines 461-466 */
    method ApplyOperation(i: nat, op: Operation, buffer: Option<Data>) returns (out: Option<Data>)
      requires cfg.Legal() && AllSized() && i < branch.Length() && branch.Id(i) != 0
      requires op.Clear? <==> buffer.None?
      requires buffer.Some? ==> |buffer.value| == cfg.DataBytes()
      modifies branch.buffers, branch.boxes
      ensures AllSized()
      ensures Here() == old(Here().(branch := Apply(Here(), i, op, buffer.GetOr([]))))
      ensures op.Clear? ==> branch.Data(i) == old(branch.Data(i))
      ensures out == if op.Read? then Some(old(branch.Data(i))) else buffer
      ensures branch.View() == old(branch.View()[i :=
                match op
                case Read => branch.View()[i]
                case Write => branch.View()[i].(data := buffer.value)
                case Clear => branch.View()[i].(id := 0)])
      ensures Refilled(old(Fillers()) + (if op.Clear? then {old(branch.Data(i))} else {}), old(noised))
    {
      hide Branch.Valid, Branch.View, Config.Legal, Config.DataBytes, Config.IdSpace, Block.Valid;
      out := buffer;
      match op {
        case Read => out := Some(branch.Data(i));
        case Write => branch.SetData(i, buffer.value);
        case Clear => branch.SetBlockId(i, 0);
      }
      SetFillers(old(branch.View()), i, branch.View()[i]);
      assert Here().branch == old(Apply(Here(), i, op, buffer.GetOr([])));
    }

    /** Lines 517-566 */
    method ScanStash(ghost c: Context, requested: nat, order: seq<nat>) returns (at: nat, keysToRemove: seq<nat>)
      requires Underway(c) && requested == c.requested
      requires NoZero(c, order) && forall i :: 0 <= i < |order| ==> order[i] in stash && order[i] in positionMap
      modifies branch.buffers, branch.boxes
      ensures Underway(c) && at <= |order|
      ensures Scanned(Here().branch, SetOf(keysToRemove), at) ==
              Scan(c, Scanned(old(Here().branch), {}, 0), stash, order)
      ensures Refilled(old(Fillers()), old(noised))
    {
      hide Refilled, Here, Branch.Valid, Branch.View, Config.Legal, Config.DataBytes, Config.IdSpace, Block.Valid;
      HereFacts();
      at, keysToRemove := 0, [];
      ghost var start := Scanned(Here().branch, {}, 0);
      assert SetOf([]) == {};
      ghost var f0, n0 := Fillers(), noised;
      RefilledNow();
      while at < |order| && order[at] != requested
        invariant at <= |order| && Underway(c)
        invariant Scan(c, start, stash, order) == Scan(c, Scanned(Here().branch, SetOf(keysToRemove), at), stash, order)
        invariant Refilled(f0, n0)
        decreases |order| - at, multiset(Here().branch)[Free]
      {
        RefilledIs(f0, n0);
        ghost var f1, n1 := Fillers(), noised;
        at, keysToRemove := ScanRound(c, requested, order, at, keysToRemove);
        assert f1 + {} == f1 && f0 + {} == f0;
        RefilledJoin(f0, n0, f1, n1, {});
      }
    }

    /** Lines 553-565: one entry of the stash, once. */
    method ScanRound(ghost c: Context, requested: nat, order: seq<nat>, at: nat, keysToRemove: seq<nat>)
      returns (at': nat, keysToRemove': seq<nat>)
      requires Underway(c) && requested == c.requested && at < |order|
      requires order[at] in stash && order[at] != 0 && order[at] in positionMap
      modifies branch.buffers, branch.boxes
      ensures Underway(c)
      ensures Scanned(Here().branch, SetOf(keysToRemove'), at') ==
              ScanStep(c, Scanned(old(Here().branch), SetOf(keysToRemove), at), stash, order)
      ensures at < at' || (at == at' && multiset(Here().branch)[Free] < multiset(old(Here().branch))[Free])
      ensures at' <= |order|
      ensures Refilled(old(Fillers()), old(noised))
    {
      hide *;
      UnderwayFacts(c);
      HereFacts();
      var id := order[at];
      DepthBounds(c, id);
      DepthIs(c, id);
      var idx := IntersectionBucket(positionMap[requested], positionMap[id]);
      var hi := SlotIndex(idx + 1);
      var j := FirstFree(idx, hi);
      ScanStepIs(c, Scanned(Here().branch, SetOf(keysToRemove), at), stash, order, hi, j);
      at', keysToRemove' := at, keysToRemove;
      RefilledNow();
      assert old(Fillers()) + {} == old(Fillers());
      if j < hi {
        SetSlot(j, id, stash[id]);
        keysToRemove' := keysToRemove + [id];
        SetOfMore(keysToRemove, id);
      } else {
        at' := at + 1;
      }
      UnderwayAgain(c);
    }

    /** Lines 526-528, 548-550 and 567-569 */
    method EraseAll(keys: seq<nat>)
      requires cfg.Legal() && AllSized()
      modifies this`stash
      ensures AllSized() && stash == old(stash) - SetOf(keys)
      ensures Here() == old(Here().(stash := stash - SetOf(keys)))
    {
      hide Branch.Valid, Branch.View, Config.Legal, Config.DataBytes, Config.IdSpace, Block.Valid;
      var i := 0;
      while i < |keys|
        invariant 0 <= i <= |keys|
        invariant AllSized() && stash == old(stash) - SetOf(keys[..i])
      {
        stash := stash - {keys[i]};
        i := i + 1;
      }
      assert keys[..i] == keys;
    }

    /** `stash[id] = data` */
    method SetStash(id: nat, data: Data)
      requires cfg.Legal() && AllSized() && |data| == cfg.DataBytes()
      modifies this`stash
      ensures AllSized() && stash == old(stash)[id := data]
      ensures Here() == old(Here().(stash := stash[id := data]))
    {
      hide Branch.Valid, Branch.View, Config.Legal, Config.DataBytes, Config.IdSpace, Block.Valid;
      stash := stash[id := data];
    }

    /** `stash.erase(id)` */
    method EraseStash(id: nat)
      requires cfg.Legal() && AllSized()
      modifies this`stash
      ensures AllSized() && stash == old(stash) - {id}
      ensures Here() == old(Here().(stash := stash - {id}))
    {
      hide Branch.Valid, Branch.View, Config.Legal, Config.DataBytes, Config.IdSpace, Block.Valid;
      stash := stash - {id};
    }

    /** Lines 519-552: the scan has stopped at the requested block. */
    method FinishStashed(ghost c: Context, requested: nat, op: Operation, buffer: Option<Data>, keys: seq<nat>)
      returns (out: Option<Data>, ghost newLeaf: nat)
      requires Underway(c) && requested == c.requested && requested in stash && requested !in keys
      requires op.Clear? <==> buffer.None?
      requires buffer.Some? ==> |buffer.value| == cfg.DataBytes()
      modifies this`stash, this`positionMap, this`drawn, branch.buffers, branch.boxes
      ensures AllSized() && ValidLeaf(cfg.levels, newLeaf)
      ensures Reach(c, newLeaf) <= branch.Length()
      ensures var rest := old(Store(Here().branch, stash - SetOf(keys) - {requested}));
              var data := if op.Write? then buffer.value else old(stash[requested]);
              if op.Clear?
              then Here() == rest && positionMap == old(positionMap) && Draws() == old(Draws()) && out == buffer
              else Here() == Place(c, rest, data, newLeaf) && positionMap == old(positionMap)[requested := newLeaf] &&
                   Draws() == old(Draws()) + [newLeaf] && out == Some(data)
      ensures var data := if op.Write? then buffer.value else old(stash[requested]);
              Refilled(old(Fillers()) + (if requested == 0 then {data} else {}), old(noised))
    {
      hide Refilled, Fillers, Here, Branch.Valid, Branch.View, Config.Legal, Config.DataBytes, Config.IdSpace,
           Block.Valid;
      HereFacts();
      ghost var rest := Store(Here().branch, stash - SetOf(keys) - {requested});
      out, newLeaf := buffer, c.leaf;
      ReachBounds(c, newLeaf);
      match op {
        case Read =>
          out := Some(stash[requested]);
          newLeaf := MoveStashed(c, rest, requested, stash[requested], keys);
        case Write =>
          newLeaf := MoveStashed(c, rest, requested, buffer.value, keys);
        case Clear =>
          EraseStash(requested);
          EraseAll(keys);
          RefilledNow();
          RefilledMore(Fillers(), noised, if requested == 0 then {old(stash[requested])} else {});
          assert stash == old(stash - SetOf(keys) - {requested});
      }
    }

    /** Lines 521-552 for a read or a write: the stash entry gets its data and moves to the branch
        if a slot within reach is free. */
    method MoveStashed(ghost c: Context, ghost rest: Store, requested: nat, data: Data, keys: seq<nat>)
      returns (ghost newLeaf: nat)
      requires rest == Store(Here().branch, stash - SetOf(keys) - {requested})
      requires Underway(c) && requested == c.requested && requested !in keys && |data| == cfg.DataBytes()
      modifies this`stash, this`positionMap, this`drawn, branch.buffers, branch.boxes
      ensures AllSized() && ValidLeaf(cfg.levels, newLeaf)
      ensures Reach(c, newLeaf) <= branch.Length()
      ensures Here() == Place(c, rest, data, newLeaf)
      ensures positionMap == old(positionMap)[requested := newLeaf] && Draws() == old(Draws()) + [newLeaf]
      ensures Refilled(old(Fillers()) + (if requested == 0 then {data} else {}), old(noised))
    {
      hide *;
      UnderwayFacts(c);
      HereFacts();
      EraseUpdated(stash, requested, data, keys);
      SetStash(requested, data);
      var hi;
      hi, newLeaf := Remap(c, requested);
      HereFacts();
      var j := MoveBelow(Here(), hi, requested, keys);
      PlaceCases(c, rest, data, newLeaf, j);
    }

    /** Lines 537-550: the entry moves to the last free slot below `hi`, or stays. */
    method MoveBelow(ghost st: Store, hi: nat, requested: nat, keys: seq<nat>) returns (j: nat)
      requires cfg.Legal() && AllSized() && hi <= branch.Length() && requested in stash && requested < cfg.IdSpace()
      requires st == Here() && st.stash == stash && |st.branch| == branch.Length()
      modifies this`stash, branch.buffers, branch.boxes
      ensures AllSized() && j == FindFreeDown(st.branch, hi)
      ensures j > 0 ==>
              Here() == Store(st.branch[j - 1 := MakeSlot(requested, st.stash[requested])],
                  st.stash - SetOf(keys + [requested]))
      ensures j == 0 ==> Here() == Store(st.branch, st.stash - SetOf(keys))
      ensures Refilled(old(Fillers()) + (if requested == 0 then {st.stash[requested]} else {}), old(noised))
    {
      hide *;
      HereFacts();
      j := LastFree(hi);
      RefilledNow();
      RefilledMore(Fillers(), noised, if requested == 0 then {st.stash[requested]} else {});
      if j > 0 {
        SetSlot(j - 1, requested, stash[requested]);
        EraseAll(keys + [requested]);
      } else {
        EraseAll(keys);
      }
    }

    /** `branch[j] = Block(id, data)` */
    method SetSlot(j: nat, id: nat, data: Data)
      requires cfg.Legal() && AllSized() && j < branch.Length() && id < cfg.IdSpace() && |data| == cfg.DataBytes()
      modifies branch.buffers, branch.boxes
      ensures AllSized()
      ensures Here() == old(Here().(branch := Here().branch[j := MakeSlot(id, data)]))
      ensures branch.View() == old(branch.View())[j := Plain(id, data)]
      ensures Refilled(old(Fillers()) + (if id == 0 then {data} else {}), old(noised))
    {
      hide Branch.Valid, Branch.View, Config.Legal, Config.DataBytes, Config.IdSpace, Block.Valid;
      branch.Set(j, id, data);
      SetFillers(old(branch.View()), j, Plain(id, data));
      assert Here().branch == old(Here().branch)[j := MakeSlot(id, data)];
    }

    /** Lines 567-584: neither the branch nor the stash has the requested block. */
    method FinishNew(ghost c: Context, requested: nat, value: Data, keys: seq<nat>) returns (ghost newLeaf: nat)
      requires Underway(c) && requested == c.requested && requested !in stash && |value| == cfg.DataBytes()
      modifies this`stash, this`positionMap, this`drawn, branch.buffers, branch.boxes
      ensures AllSized() && ValidLeaf(cfg.levels, newLeaf)
      ensures Reach(c, newLeaf) <= branch.Length()
      ensures Here() == Place(c, old(Store(Here().branch, stash - SetOf(keys) - {requested})), value, newLeaf)
      ensures positionMap == old(positionMap)[requested := newLeaf] && Draws() == old(Draws()) + [newLeaf]
      ensures Refilled(old(Fillers()) + (if requested == 0 then {value} else {}), old(noised))
    {
      hide *;
      UnderwayFacts(c);
      HereFacts();
      EraseAbsent(stash, keys, requested);
      EraseAll(keys);
      HereFacts();
      ghost var rest, fillers := Here(), Fillers();
      var hi;
      hi, newLeaf := Remap(c, requested);
      var j := LastFree(hi);
      RefilledNow();
      RefilledMore(fillers, noised, if requested == 0 then {value} else {});
      PlaceCases(c, rest, value, newLeaf, j);
      assert fillers == old(Fillers());
      if j > 0 {
        SetSlot(j - 1, requested, value);
      } else {
        SetStash(requested, value);
      }
    }

    /** Lines 454-585. The new branch, stash, position map and buffer are those of `Traverse`, for
        some draw of the new leaf and some enumeration order of the stash. */
    method TraverseBranch(requested: nat, op: Operation, buffer: Option<Data>)
      returns (out: Option<Data>, ghost newLeaf: nat, ghost order: seq<nat>)
      requires requested in positionMap
      requires var c := Context(cfg.levels, cfg.blocks, positionMap, requested, positionMap[requested]);
               Traversing(c) && Unique(Here())
      requires op.Clear? <==> buffer.None?
      requires buffer.Some? ==> |buffer.value| == cfg.DataBytes()
      requires op.Clear? ==> Contains(Here(), requested)
      modifies this`stash, this`positionMap, this`drawn, this`noised, branch.buffers, branch.boxes
      ensures AllSized() && ValidLeaf(cfg.levels, newLeaf)
      ensures var c := old(Context(cfg.levels, cfg.blocks, positionMap, requested, positionMap[requested]));
              ScanOrder(c, old(Here()), order) && !ReadsNull(c, old(Here()), op, order) &&
              Result(Here(), positionMap, out) == Traverse(c, old(Here()), op, buffer, newLeaf, order)
      ensures || (Draws() == old(Draws()) + [newLeaf] && positionMap == old(positionMap)[requested := newLeaf])
              || (op.Clear? && Draws() == old(Draws()) && positionMap == old(positionMap))
      ensures AllExplained(Fillers(), old(Fillers()), old(noised), op, buffer, requested, old(Here()))
    {
      hide *;
      ghost var c := Context(cfg.levels, cfg.blocks, positionMap, requested, positionMap[requested]);
      ghost var st := Here();
      TraversingFacts(c);
      ReadyHere(c);
      var i := WalkBranch(c, requested);
      TraversingFacts(c);
      ghost var w := Here();
      ghost var f0, n0, f1, n1 := old(Fillers()), old(noised), Fillers(), noised;
      RefilledIs(f0, n0);
      HeldBefore(c, st, w, requested);
      if i < branch.Length() {
        ghost var extra := if op.Clear? then {branch.Data(i)} else {};
        HoldsAt(w, i, requested, branch.Data(i));
        out, newLeaf := ReplaceRequested(c, i, requested, op, buffer);
        RefilledJoin(f0, n0, f1, n1, extra);
        RefilledExplains(f0, n0, extra, op, buffer, requested, st);
        order := [];
        TraverseFound(c, st, w, i, op, buffer, newLeaf);
      } else {
        out, newLeaf, order := TraverseStash(c, st, requested, op, buffer);
        ExplainedJoin(Fillers(), f0, n0, f1, n1, op, buffer, requested, st);
      }
    }

    /** Lines 456-513: the slot of the requested block, or the end of the branch. */
    method WalkBranch(ghost c: Context, requested: nat) returns (i: nat)
      requires Traversing(c) && requested == c.requested
      modifies this`stash, this`noised, branch.buffers, branch.boxes
      ensures Traversing(c) && i <= branch.Length()
      ensures i < branch.Length() ==> branch.Id(i) == requested != 0
      ensures Walk(c, old(Here()), 0) == if i < branch.Length() then Found(Here(), i) else Missing(Here())
      ensures Refilled(old(Fillers()), old(noised))
    {
      hide *;
      TraversingFacts(c);
      ghost var st := Here();
      ghost var f0, n0 := Fillers(), noised;
      RefilledNow();
      i := 0;
      while i < branch.Length() && (branch.Id(i) == 0 || branch.Id(i) != requested)
        invariant i <= branch.Length() == |Here().branch| == |st.branch| && Traversing(c) && branch.Valid()
        invariant Refilled(f0, n0)
        invariant Walk(c, st, 0) == Walk(c, Here(), i)
      {
        RefilledIs(f0, n0);
        ghost var f1, n1 := Fillers(), noised;
        i := WalkRound(c, i, requested);
        assert f1 + {} == f1 && f0 + {} == f0;
        RefilledJoin(f0, n0, f1, n1, {});
        TraversingFacts(c);
      }
      TraversingFacts(c);
      WalkIs(c, Here(), i);
    }

    /** One round of the loop over the branch, for a slot without the requested block. */
    method WalkRound(ghost c: Context, i: nat, requested: nat) returns (next: nat)
      requires Traversing(c) && requested == c.requested && i < branch.Length()
      requires branch.Id(i) == 0 || branch.Id(i) != requested
      modifies this`stash, this`noised, branch.buffers, branch.boxes
      ensures Traversing(c) && next == i + 1
      ensures Walk(c, old(Here()), i) == Walk(c, Here(), next)
      ensures Refilled(old(Fillers()), old(noised))
    {
      hide *;
      TraversingFacts(c);
      UnderwayFacts(c);
      ghost var st := Here();
      WalkIs(c, st, i);
      next := i + 1;
      RefilledNow();
      if branch.Id(i) != 0 {
        FittingFacts(c, st, i);
        VisitFitting(c, st, i);
        VisitSlot(c, i, requested);
        TraversingAgain(c);
      }
    }

    /** Lines 515-585 */
    method TraverseStash(ghost c: Context, ghost st: Store, requested: nat, op: Operation, buffer: Option<Data>)
      returns (out: Option<Data>, ghost newLeaf: nat, ghost order: seq<nat>)
      requires Traversing(c) && requested == c.requested
      requires Ready(c, st) && Walk(c, st, 0) == Missing(Here())
      requires op.Clear? <==> buffer.None?
      requires buffer.Some? ==> |buffer.value| == cfg.DataBytes()
      requires op.Clear? ==> Contains(st, requested)
      modifies this`stash, this`positionMap, this`drawn, this`noised, branch.buffers, branch.boxes
      ensures AllSized() && ValidLeaf(cfg.levels, newLeaf)
      ensures ScanOrder(c, st, order) && !ReadsNull(c, st, op, order) &&
              Result(Here(), positionMap, out) == Traverse(c, st, op, buffer, newLeaf, order)
      ensures || (Draws() == old(Draws()) + [newLeaf] && positionMap == old(positionMap)[requested := newLeaf])
              || (op.Clear? && Draws() == old(Draws()) && positionMap == old(positionMap))
      ensures AllExplained(Fillers(), old(Fillers()), old(noised), op, buffer, requested, st)
    {
      hide *;
      TraversingFacts(c);
      UnderwayFacts(c);
      ghost var w := Here();
      var enumeration := EnumerateKeys(stash.Keys);
      order := enumeration;
      OrderFits(c, st, w, order);
      GetOrIs(buffer);
      ScanFromStart(c, st, order);
      TailReachedIff(c, st, order);
      ClearOfHeld(c, st, op, order);
      var at, keys := ScanStash(c, requested, enumeration);
      ScanAllIs(c, w, order);
      ghost var f0, n0, f1, n1 := old(Fillers()), old(noised), Fillers(), noised;
      RefilledIs(f0, n0);
      HeldBefore(c, st, w, requested);
      ReadySize(c, st);
      if at < |enumeration| {
        NotPlaced(c, w, order);
        SetOfHas(keys, requested);
        ghost var data := if op.Write? then buffer.value else stash[requested];
        ghost var extra := if requested == 0 then {data} else {};
        HoldsInStash(w, requested);
        out, newLeaf := FinishStashed(c, requested, op, buffer, keys);
        RefilledJoin(f0, n0, f1, n1, extra);
        RefilledExplains(f0, n0, extra, op, buffer, requested, st);
        TraverseMissing(c, st, w, op, buffer, newLeaf, order);
      } else {
        NotInOrder(c, w, order);
        out := buffer;
        ghost var extra := if requested == 0 then {buffer.value} else {};
        newLeaf := FinishNew(c, requested, buffer.value, keys);
        RefilledJoin(f0, n0, f1, n1, extra);
        RefilledExplains(f0, n0, extra, op, buffer, requested, st);
        TraverseMissing(c, st, w, op, buffer, newLeaf, order);
      }
    }

    // ----- One access over the connection -----

    ghost predicate Connected()
      reads this`stash, this`positionMap, server, server.store
    {
      && cfg.Legal() && cipher.Inverts(cfg.blockSize)
      && server.cfg == cfg && server.Valid() && !server.busy && !server.stopped
      && (forall id :: id in positionMap ==> id < cfg.IdSpace())
      && (forall id :: id in stash ==> |stash[id]| == cfg.DataBytes())
    }

    /** The server's tree in the clear, with the client's stash and position map. */
    ghost function Whole(): World
      requires cfg.Legal()
      reads this`stash, this`positionMap, server.store
    {
      World(cfg.levels, cfg.blocks, MapTree(Opener(cfg, cipher), server.store[..]), stash, positionMap)
    }

    /** Lines 424-438: decrypt what the server sent. */
    method FetchBranch(blocks: seq<Wire>)
      requires cfg.Legal() && cipher.Inverts(cfg.blockSize)
      requires forall i :: 0 <= i < |blocks| ==> |blocks[i]| == cfg.blockSize
      requires forall id :: id in stash ==> |stash[id]| == cfg.DataBytes()
      modifies this`branch
      ensures fresh(branch) && fresh(branch.blocks) && fresh(branch.boxes) && fresh(branch.buffers)
      ensures branch.Length() == |blocks| && AllSized()
      ensures branch.View() == OpenAll(cfg, cipher, blocks)
      ensures Here() == Store(MapSeq(Opener(cfg, cipher), blocks), stash)
    {
      hide *;
      branch := new Branch(cfg, |blocks|);
      var i := 0;
      while i < |blocks|
        invariant fresh(branch) && fresh(branch.blocks) && fresh(branch.boxes) && fresh(branch.buffers)
        invariant 0 <= i <= |blocks| && |blocks| == branch.Length() && branch.Valid() && branch.cfg == cfg
        invariant forall k :: 0 <= k < i ==> branch.View()[k] == OpenAll(cfg, cipher, blocks)[k]
      {
        ReceivedIs(blocks, i);
        branch.Receive(i, blocks[i], cipher);
        i := i + 1;
      }
      AllReceived(blocks);
    }

    lemma ReceivedIs(blocks: seq<Wire>, i: nat)
      requires cfg.Legal() && cipher.Inverts(cfg.blockSize) && i < |blocks| && |blocks[i]| == cfg.blockSize
      ensures |cipher.dec(blocks[i])| == cfg.blockSize
      ensures Open(cfg, cipher, blocks[i]) == OpenAll(cfg, cipher, blocks)[i]
    {
    }

    lemma AllReceived(blocks: seq<Wire>)
      requires cfg.Legal() && cipher.Inverts(cfg.blockSize) && branch.Valid() && branch.cfg == cfg
      requires forall i :: 0 <= i < |blocks| ==> |blocks[i]| == cfg.blockSize
      requires forall id :: id in stash ==> |stash[id]| == cfg.DataBytes()
      requires |blocks| == branch.Length()
      requires forall k :: 0 <= k < |blocks| ==> branch.View()[k] == OpenAll(cfg, cipher, blocks)[k]
      ensures AllSized() && branch.View() == OpenAll(cfg, cipher, blocks)
      ensures Here() == Store(MapSeq(Opener(cfg, cipher), blocks), stash)
    {
      hide Branch.Valid, Branch.View, Config.Legal, Open;
    }

    /** Lines 601-625: encrypt and send every block. */
    method SendBranch() returns (blocks: seq<Wire>)
      requires cfg.Legal() && cipher.Inverts(cfg.blockSize) && AllSized()
      modifies branch.buffers, branch.boxes
      ensures AllSized() && |blocks| == branch.Length()
      ensures forall i :: 0 <= i < |blocks| ==> |blocks[i]| == cfg.blockSize
      ensures MapSeq(Opener(cfg, cipher), blocks) == old(Here().branch)
      ensures blocks == SealAll(cfg, cipher, old(branch.View()))
    {
      hide *;
      FillersHere();
      SizedFacts();
      blocks := [];
      ghost var plain := branch.View();
      var i := 0;
      while i < branch.Length()
        invariant 0 <= i <= branch.Length() && |blocks| == i && branch.Valid()
        invariant forall k :: i <= k < branch.Length() ==> branch.View()[k] == plain[k]
        invariant forall k :: 0 <= k < i ==> blocks[k] == Seal(cfg, cipher, plain[k])
        invariant forall k :: 0 <= k < i ==> |blocks[k]| == cfg.blockSize
        invariant forall k :: 0 <= k < i ==> OpenSlot(cfg, cipher, blocks[k]) == MakeSlot(plain[k].id, plain[k].data)
      {
        SealedSlot(plain[i]);
        var wire := branch.Send(i, cipher);
        blocks := blocks + [wire];
        i := i + 1;
      }
      SizedAgain();
      AllSent(blocks, plain);
    }

    lemma AllSent(blocks: seq<Wire>, plain: seq<Plain>)
      requires cfg.Legal() && |blocks| == |plain| && forall k :: 0 <= k < |plain| ==> Sized(cfg, plain[k])
      requires forall k :: 0 <= k < |blocks| ==> blocks[k] == Seal(cfg, cipher, plain[k])
      requires forall k :: 0 <= k < |blocks| ==>
                 OpenSlot(cfg, cipher, blocks[k]) == MakeSlot(plain[k].id, plain[k].data)
      ensures MapSeq(Opener(cfg, cipher), blocks) == ViewAll(plain) && blocks == SealAll(cfg, cipher, plain)
    {
      hide Config.Legal, Seal, OpenSlot, MakeSlot, Sized;
    }

    lemma SealedSlot(p: Plain)
      requires cfg.Legal() && cipher.Inverts(cfg.blockSize) && Sized(cfg, p)
      ensures |Seal(cfg, cipher, p)| == cfg.blockSize
      ensures OpenSlot(cfg, cipher, Seal(cfg, cipher, p)) == MakeSlot(p.id, p.data)
    {
      OpenSeal(cfg, cipher, p);
    }

    /** The fetched branch of the world, as the traversal finds it. */
    lemma FetchedBranch(leaf: nat)
      requires Connected() && ValidLeaf(cfg.levels, leaf)
      ensures cfg.Legal() && cipher.Inverts(cfg.blockSize) && server.cfg == cfg && server.Valid() && !server.busy
      ensures !server.stopped
      ensures forall id :: id in stash ==> |stash[id]| == cfg.DataBytes()
      ensures Shaped(cfg.levels, cfg.blocks, server.store[..]) && Shaped(cfg.levels, cfg.blocks, Whole().tree)
      ensures Whole().L == cfg.levels && Whole().B == cfg.blocks
      ensures Whole().Fetched(leaf) ==
              Store(MapSeq(Opener(cfg, cipher), Fetch(cfg.levels, cfg.blocks, server.store[..], leaf)), stash)
    {
      hide Config.Legal, Cipher.Inverts, Opener, Logged, Fetch, Pow2, ValidLeaf;
      FetchMaps(Opener(cfg, cipher), cfg.levels, cfg.blocks, server.store[..], leaf);
    }

    /** The common part of put, get and clear (lines 205-248, 269-312 and 331-373): request, fetch,
        traverse, send back, acknowledgement. The outcome is that of `Traverse` on the fetched branch
        for some draw and some enumeration order, the fetched path and nothing else is rewritten with the
        encryptions of what it left, slot by slot (free slots included), and what the server has recorded is
        the trace of one access with its two random numbers. */
    method Access(requested: nat, op: Operation, buffer: Option<Data>)
      returns (rc: int, out: Option<Data>, ghost last: Lockstep.Access<Wire>, ghost newLeaf: nat,
               ghost order: seq<nat>, ghost r: Result, ghost left: seq<Plain>)
      requires Connected() && requested in positionMap && ValidLeaf(cfg.levels, positionMap[requested])
      requires Shaped(cfg.levels, cfg.blocks, Whole().tree)
      requires Ready(Whole().Traversing(requested), Whole().Fetched(positionMap[requested]))
      requires op.Clear? <==> buffer.None?
      requires buffer.Some? ==> |buffer.value| == cfg.DataBytes()
      requires op.Clear? ==> Contains(Whole().Fetched(positionMap[requested]), requested)
      modifies this`branch, this`stash, this`positionMap, this`drawn, this`noised, server, server.store
      ensures Connected() && rc == 0 && ValidLeaf(cfg.levels, newLeaf)
      ensures ScanOrder(old(Whole().Traversing(requested)), old(Whole().Fetched(positionMap[requested])), order)
      ensures !ReadsNull(old(Whole().Traversing(requested)), old(Whole().Fetched(positionMap[requested])), op, order)
      ensures r ==
              Traverse(old(Whole().Traversing(requested)), old(Whole().Fetched(positionMap[requested])), op, buffer,
                  newLeaf, order)
      ensures out == r.buffer && |r.st.branch| == Start(cfg.blocks, cfg.levels)
      ensures old(Shaped(cfg.levels, cfg.blocks, Whole().tree))
      ensures Whole() == old(Whole()).Rewritten(old(positionMap[requested]), r.st, r.positions)
      ensures || (Draws() == old(Draws()) + [last.requestId] + [newLeaf] &&
              positionMap == old(positionMap)[requested := newLeaf])
              || (op.Clear? && Draws() == old(Draws()) + [last.requestId] && positionMap == old(positionMap))
      ensures last.leaf == old(positionMap[requested]) && server.session.script == old(server.session.script) + [last]
      ensures server.trace == old(server.trace) + AccessTrace(cfg, last.requestId, last.leaf)
      ensures (forall i :: 0 <= i < |left| ==> Sized(cfg, left[i])) && ViewAll(left) == r.st.branch
      ensures server.store[..] ==
              WriteBack(cfg.levels, cfg.blocks, old(server.store[..]), last.leaf, SealAll(cfg, cipher, left))
      ensures AllExplained(FillersOf(left), old(FillersFetched(positionMap[requested])), old(noised), op, buffer,
                  requested, old(Whole().Fetched(positionMap[requested])))
    {
      hide *;
      ghost var leaf, positions := positionMap[requested], positionMap;
      FetchedBranch(leaf);
      ghost var w := Whole();
      WholeTree();
      ConnectedIds();
      WholeIs();
      var request := Download(positionMap[requested]);
      InAccessFacts(request, leaf);
      WholeIs();
      ReadyToTraverse(request, requested);
      out, newLeaf, order := TraverseBranch(requested, op, buffer);
      r := Result(Here(), positionMap, out);
      left := branch.View();
      HereFacts();
      FillersHere();
      InAccessNow(request, leaf);
      WholeTree();
      var confirmationId;
      confirmationId, last := Upload(request, leaf);
      TraceJoins(old(server.trace), cfg, request, leaf);
      WholeIs();
      RewrittenIs(w, leaf, r.st, r.positions);
      ConnectedAgain(requested, positions);
      rc := if confirmationId != request then -1 else 0;
    }

    /** Lines 159-178: request id 0, and nothing else, stops the server. No access sends it, because a
        drawn request id is at least 1. */
    method Shutdown() returns (rc: int)
      requires Connected()
      modifies server
      ensures rc == 0 && server.stopped && server.Valid() && !server.busy && !Connected()
      ensures server.trace == old(server.trace) + [ReceivedRequest(0)] && server.session == old(server.session)
      ensures Whole() == old(Whole())
    {
      hide Config.Legal, Cipher.Inverts, Logged, Fetch, FetchTrace, Shaped, ValidLeaf;
      var refused, none := server.BeginAccess(0, 0);
      rc := 0;
    }

    /** The data of the free slots on the way to a leaf, as the server holds them */
    ghost function FillersFetched(leaf: nat): set<Data>
      requires cfg.Legal() && ValidLeaf(cfg.levels, leaf) && Shaped(cfg.levels, cfg.blocks, server.store[..])
      reads server, server.store
    {
      FillersOf(OpenAll(cfg, cipher, Fetch(cfg.levels, cfg.blocks, server.store[..], leaf)))
    }

    lemma FetchedAre(leaf: nat)
      requires cfg.Legal() && ValidLeaf(cfg.levels, leaf) && Shaped(cfg.levels, cfg.blocks, server.store[..])
      ensures FillersFetched(leaf) ==
              FillersOf(OpenAll(cfg, cipher, Fetch(cfg.levels, cfg.blocks, server.store[..], leaf)))
    {
    }

    lemma FillersHere()
      requires cfg.Legal() && AllSized()
      ensures Fillers() == FillersOf(branch.View()) && Here().branch == ViewAll(branch.View())
      ensures forall i :: 0 <= i < |branch.View()| ==> Sized(cfg, branch.View()[i])
    {
      hide FillersOf;
    }

    /** The server waits for the rewritten branch of the access with these two numbers. */
    ghost predicate InAccess(requestId: nat, leaf: nat)
      reads this`branch, this`stash, branch.blocks, branch.buffers, server, server.store
    {
      && cfg.Legal() && cipher.Inverts(cfg.blockSize) && AllSized()
      && server.cfg == cfg && server.Valid() && server.busy && !server.stopped && server.requestId == requestId &&
         server.leaf == leaf
      && branch.Length() == Start(cfg.blocks, cfg.levels)
    }

    lemma InAccessNow(requestId: nat, leaf: nat)
      requires cfg.Legal() && cipher.Inverts(cfg.blockSize) && AllSized()
      requires server.cfg == cfg && server.Valid() && server.busy && !server.stopped && server.requestId == requestId
      requires server.leaf == leaf
      requires branch.Length() == Start(cfg.blocks, cfg.levels)
      ensures InAccess(requestId, leaf)
    {
    }

    lemma InAccessFacts(requestId: nat, leaf: nat)
      requires InAccess(requestId, leaf)
      ensures cfg.Legal() && cipher.Inverts(cfg.blockSize) && AllSized() && branch.Valid()
      ensures server.cfg == cfg && server.Valid() && server.busy && !server.stopped && server.requestId == requestId
      ensures server.leaf == leaf
      ensures branch.Length() == Start(cfg.blocks, cfg.levels) == |Here().branch| && ValidLeaf(cfg.levels, leaf)
      ensures Shaped(cfg.levels, cfg.blocks, server.store[..]) && Here().stash == stash
    {
      HereFacts();
    }

    /** The fetched branch meets what the traversal relies on. */
    lemma ReadyToTraverse(requestId: nat, requested: nat)
      requires requested in positionMap && InAccess(requestId, positionMap[requested])
      requires forall id :: id in positionMap ==> id < cfg.IdSpace()
      requires cfg.Legal() && Shaped(cfg.levels, cfg.blocks, Whole().tree)
      requires ValidLeaf(cfg.levels, positionMap[requested])
      requires Whole().L == cfg.levels && Whole().positions == positionMap
      requires Here() == Whole().Fetched(positionMap[requested]) && Ready(Whole().Traversing(requested), Here())
      ensures var c := Context(cfg.levels, cfg.blocks, positionMap, requested, positionMap[requested]);
              Whole().Traversing(requested) == c && Traversing(c) && Unique(Here())
    {
      hide Config.Legal, Cipher.Inverts, Server.Valid, Branch.Valid, Branch.View, Unique, Fitting, Here, MapTree,
           Shaped, Fetch;
    }

    lemma WholeIs()
      requires cfg.Legal()
      ensures Whole() == World(cfg.levels, cfg.blocks, Whole().tree, stash, positionMap)
    {
    }

    lemma ConnectedAgain(requested: nat, before: map<nat, nat>)
      requires cfg.Legal() && cipher.Inverts(cfg.blockSize) && server.cfg == cfg && server.Valid() && !server.busy
      requires !server.stopped
      requires AllSized() && requested in before && positionMap.Keys == before.Keys
      requires forall id :: id in before ==> id < cfg.IdSpace()
      ensures Connected()
    {
      hide Branch.Valid, Config.Legal, Config.IdSpace, Config.DataBytes, Server.Valid, Cipher.Inverts;
      forall id | id in positionMap
        ensures id < cfg.IdSpace()
      {
        assert id in positionMap.Keys;
      }
    }

    lemma WholeTree()
      requires cfg.Legal()
      ensures Whole().tree == MapTree(Opener(cfg, cipher), server.store[..])
    {
    }

    lemma ConnectedIds()
      requires Connected()
      ensures forall id :: id in positionMap ==> id < cfg.IdSpace()
    {
    }

    /** Lines 205-219: send the request id and the leaf, receive the branch. */
    method Download(leaf: nat) returns (requestId: nat)
      requires Connected() && ValidLeaf(cfg.levels, leaf)
      modifies this`branch, this`drawn, server
      ensures fresh(branch) && fresh(branch.blocks) && fresh(branch.boxes) && fresh(branch.buffers)
      ensures InAccess(requestId, leaf) && server.session == old(server.session)
      ensures Shaped(cfg.levels, cfg.blocks, Whole().tree) && Here() == Whole().Fetched(leaf)
      ensures Draws() == old(Draws()) + [requestId]
      ensures server.trace == old(server.trace) + FetchTrace(cfg, requestId, leaf)
      ensures branch.View() == OpenAll(cfg, cipher, Fetch(cfg.levels, cfg.blocks, server.store[..], leaf))
      ensures Shaped(cfg.levels, cfg.blocks, server.store[..]) && Fillers() == old(FillersFetched(leaf))
    {
      hide *;
      FetchedBranch(leaf);
      FetchedAre(leaf);
      requestId := Rand();
      var rc, blocks := server.BeginAccess(requestId, leaf);
      FetchBranch(blocks);
      FillersHere();
      HereFacts();
      InAccessNow(requestId, leaf);
    }

    /** Lines 235-248: send the branch back, receive the confirmation. */
    method Upload(requestId: nat, ghost leaf: nat) returns (confirmationId: nat, ghost last: Lockstep.Access<Wire>)
      requires InAccess(requestId, leaf)
      modifies server, server.store, branch.buffers, branch.boxes
      ensures cfg.Legal() && server.Valid() && !server.busy && !server.stopped && confirmationId == requestId
      ensures ValidLeaf(cfg.levels, leaf) && Shaped(cfg.levels, cfg.blocks, old(Whole().tree))
      ensures Whole().tree == WriteBack(cfg.levels, cfg.blocks, old(Whole().tree), leaf, old(Here().branch))
      ensures last.requestId == requestId && last.leaf == leaf
      ensures server.session.script == old(server.session.script) + [last]
      ensures AllSized() && server.trace == old(server.trace) + StoreTrace(cfg, requestId, leaf)
      ensures server.store[..] ==
              WriteBack(cfg.levels, cfg.blocks, old(server.store[..]), leaf, SealAll(cfg, cipher, old(branch.View())))
    {
      hide *;
      InAccessFacts(requestId, leaf);
      WholeTree();
      FetchMaps(Opener(cfg, cipher), cfg.levels, cfg.blocks, server.store[..], leaf);
      var wires := SendBranch();
      WriteBackMaps(Opener(cfg, cipher), cfg.levels, cfg.blocks, server.store[..], leaf, wires);
      confirmationId := server.FinishAccess(wires);
      WholeTree();
      last := server.session.script[|server.session.script| - 1];
      AnsweringIs(requestId, leaf, Fetch(cfg.levels, cfg.blocks, old(server.store[..]), leaf), wires);
    }

    // ----- The first connection -----

    /** Lines 114-142: one sealed block with id 0 for each slot of the tree, each with data of its own, whose
        bytes are the low bytes of the next draws. */
    method InitialBlocks() returns (blocks: seq<Wire>)
      requires cfg.Legal() && cipher.Inverts(cfg.blockSize) && cfg.Capacity() <= Space(4)
      modifies this`drawn
      ensures |blocks| == Start(cfg.blocks, Pow2(cfg.levels) - 1)
      ensures drawn == old(drawn) + Start(cfg.DataBytes(), |blocks|)
      ensures forall i :: 0 <= i < |blocks| ==> blocks[i] == FreeWire(old(drawn) + Start(cfg.DataBytes(), i))
      ensures forall i :: 0 <= i < |blocks| ==> |blocks[i]| == cfg.blockSize && OpenSlot(cfg, cipher, blocks[i]) == Free
    {
      hide Config.Legal, Cipher.Inverts, FreeWire, OpenSlot, Start, Pow2, Space, Config.Capacity;
      blocks := [];
      var total := TotalBlocks();
      var i := 0;
      StartNext(cfg.DataBytes(), i);
      while i < total - 1
        invariant 0 <= i < total && |blocks| == i && drawn == old(drawn) + Start(cfg.DataBytes(), i)
        invariant forall k :: 0 <= k < i ==> blocks[k] == FreeWire(old(drawn) + Start(cfg.DataBytes(), k))
      {
        var block := FreeBlock();
        StartNext(cfg.DataBytes(), i);
        blocks := blocks + [block];
        i := Increment(i, total);
      }
      var block := FreeBlock();
      StartNext(cfg.DataBytes(), i);
      blocks := blocks + [block];
      forall k | 0 <= k < |blocks|
        ensures |blocks[k]| == cfg.blockSize && OpenSlot(cfg, cipher, blocks[k]) == Free
      {
        FreeWireIsFree(old(drawn) + Start(cfg.DataBytes(), k));
      }
    }

    /** BLOCKS_PER_BUCKET * BUCKETS_PER_TREE */
    method TotalBlocks() returns (total: nat)
      requires cfg.Legal()
      ensures 0 < total == cfg.Capacity() == Start(cfg.blocks, Pow2(cfg.levels) - 1)
    {
      StartIsProduct(cfg.blocks, Pow2(cfg.levels) - 1);
      Pow2Monotone(1, cfg.levels);
      StartMonotone(cfg.blocks, 0, Pow2(cfg.levels) - 1);
      total := cfg.blocks * (Pow2(cfg.levels) - 1);
      assert total == cfg.Capacity();
    }

    /** `++i` on a 32-bit counter */
    method Increment(i: nat, total: nat) returns (next: nat)
      requires i < total - 1 < Space(4)
      ensures next == i + 1
    {
      WrapFits(i + 1, Space(4));
      next := Wrap(i + 1, Space(4));
    }

    method FreeBlock() returns (wire: Wire)
      requires cfg.Legal() && cipher.Inverts(cfg.blockSize)
      modifies this`drawn
      ensures wire == FreeWire(old(drawn)) && drawn == old(drawn) + cfg.DataBytes()
    {
      hide Config.Legal, Cipher.Inverts;
      var data: Data := [];
      while |data| < cfg.DataBytes()
        invariant |data| <= cfg.DataBytes() && drawn == old(drawn) + |data|
        invariant forall j :: 0 <= j < |data| ==> data[j] == DrawnByte(old(drawn) + j)
      {
        var leaf := Rand();
        data := data + [DrawnByte(drawn - 1)];
      }
      assert data == DrawnData(old(drawn));
      var block := new Block.FromData(cfg, 0, data);
      FitExact(data, cfg.DataBytes());
      block.Encrypt(cipher);
      wire := block.bytes[..];
    }

    /** The low byte of a draw */
    function DrawnByte(n: nat): (b: byte)
      ensures LeafOf(n) == 256 * (LeafOf(n) / 256) + b
    {
      ByteAt(LeafOf(n), 0)
    }

    /** The data made of the draws from number `n` on */
    ghost function DrawnData(n: nat): (data: Data)
      requires cfg.Legal()
      ensures |data| == cfg.DataBytes() && forall j :: 0 <= j < |data| ==> data[j] == DrawnByte(n + j)
    {
      seq<byte>(cfg.DataBytes(), j requires j >= 0 => DrawnByte(n + j))
    }

    /** The free block with the data drawn from number `n` on, sealed */
    ghost function FreeWire(n: nat): Wire
      requires cfg.Legal()
    {
      Seal(cfg, cipher, Plain(0, DrawnData(n)))
    }

    lemma FreeWireIsFree(n: nat)
      requires cfg.Legal() && cipher.Inverts(cfg.blockSize)
      ensures |FreeWire(n)| == cfg.blockSize && OpenSlot(cfg, cipher, FreeWire(n)) == Free
    {
      OpenSeal(cfg, cipher, Plain(0, DrawnData(n)));
    }

    /** Lines 104-150 of `initialize` on a client without a state file, against a server without a
        tree. Afterwards the pair stands for the empty map. */
    method Initialize()
      requires cfg.Legal() && cipher.Inverts(cfg.blockSize) && cfg.Capacity() <= Space(4)
      requires server.cfg == cfg && !server.busy && !server.stopped && server.store.Length == Pow2(cfg.levels)
      requires server.store[0] == []
      requires server.trace == []
      requires keyToBlockId == map[] && positionMap == map[] && stash == map[] && contents == map[]
      requires mapped == map[] && sent == []
      modifies this`drawn, server`trace, server`session, server.store
      ensures Valid()
      ensures forall i :: 0 <= i < |server.session.initial| ==>
                server.session.initial[i] == FreeWire(old(drawn) + Start(cfg.DataBytes(), i))
    {
      hide Good, Cipher.Inverts, Server.IsBucketOf, SetupTrace, LeavesSeen, Server.Valid, FreeWire, MapTree, Shaped,
           OpenSlot, Config.Legal, Config.DataBytes, Config.Capacity, Start;
      var blocks := InitialBlocks();
      ghost var visited;
      var batches;
      batches, visited := server.SetupFdb(blocks);
      Connects();
      AllFree(blocks);
      cfg.IdsSuffice();
      EmptyIsGood(cfg.IdSpace(), Whole());
      NothingBooked();
    }

    lemma Connects()
      requires cfg.Legal() && cipher.Inverts(cfg.blockSize) && server.cfg == cfg && server.Valid() && !server.busy
      requires !server.stopped
      requires positionMap == map[] && stash == map[]
      ensures Connected() && cfg.blocks >= 1
    {
    }

    lemma NothingBooked()
      requires positionMap == map[] && mapped == map[] && sent == []
      requires server.session.script == [] && server.trace == [] + SetupTrace(cfg)
      ensures Booked()
    {
      hide SetupTrace, LeavesSeen;
      SetupShowsNoLeaf(cfg);
      assert SetupTrace(cfg) + AccessesTrace(cfg, []) == SetupTrace(cfg);
      assert server.trace == SetupTrace(cfg) && Book().Leaves() == [];
    }

    lemma AllFree(blocks: seq<Wire>)
      requires Connected()
      requires forall n :: 1 <= n < server.store.Length ==> server.IsBucketOf(blocks, n, server.store[n])
      requires forall i :: 0 <= i < |blocks| ==> OpenSlot(cfg, cipher, blocks[i]) == Free
      ensures Shaped(cfg.levels, cfg.blocks, Whole().tree)
      ensures forall n, o :: 1 <= n < |Whole().tree| && 0 <= o < |Whole().tree[n]| ==> Whole().tree[n][o] == Free
    {
      forall n, o | 1 <= n < |Whole().tree| && 0 <= o < |Whole().tree[n]|
        ensures Whole().tree[n][o] == Free
      {
        assert server.IsBucketOf(blocks, n, server.store[n]);
      }
    }

    // ----- put, get, clear -----

    ghost function Book(): Ledger
      reads this`drawn, this`mapped, this`sent
    {
      Ledger(Draws(), mapped, sent)
    }

    /** The leaves that the server has seen are the draws that the ledger says were sent. */
    ghost predicate Booked()
      reads this`drawn, this`mapped, this`sent, this`positionMap, server`trace, server`session
    {
      && Book().Fresh(positionMap) && LeavesSeen(server.trace) == Book().Leaves()
      && OnlyAccesses(cfg, server.trace, server.session.script)
    }

    lemma BookFacts()
      requires Booked()
      ensures Book().Fresh(positionMap) && LeavesSeen(server.trace) == Book().Leaves()
      ensures OnlyAccesses(cfg, server.trace, server.session.script)
      ensures Book() == Ledger(Draws(), mapped, sent) && mapped.Keys == positionMap.Keys
    {
    }

    lemma WholeFacts()
      requires Connected()
      ensures cfg.Legal() && Whole().positions == positionMap
    {
    }

    /** Between two operations: the client and the server's tree stand for `contents`. */
    ghost predicate Valid()
      reads this`keyToBlockId, this`positionMap, this`stash, this`contents, this`drawn, this`mapped, this`sent
      reads server, server.store
    {
      Connected() && Good(cfg.IdSpace(), Both(), contents) && Booked()
    }

    /** The machine's view of client and server */
    ghost function Both(): Pair
      requires cfg.Legal()
      reads this`keyToBlockId, this`positionMap, this`stash, server.store
    {
      Pair(Whole(), keyToBlockId)
    }

    /** The state file holds the current state. */
    ghost predicate Saved()
      reads this`keyToBlockId, this`positionMap, this`stash, this`stateFile
    {
      var s := State(keyToBlockId, positionMap, stash);
      exists o :: Enumerate(o, s) && stateFile == FileBytes(s, o, cfg.IdBytes())
    }

    /** After every operation the state file restores the three maps of the client exactly when there are
        less than 2^32 keys and none is 2^32 bytes long or longer. */
    lemma ReloadIff()
      requires Valid() && Saved()
      ensures Load(stateFile, cfg.IdBytes(), cfg.DataBytes()) == Some(State(keyToBlockId, positionMap, stash)) <==>
              |contents| < Space(4) && forall k :: k in contents ==> |k| < Space(4)
    {
      hide Good, Booked, World.Consistent, FileBytes, Enumerate, Load, Keyed, AllStored;
      var s := State(keyToBlockId, positionMap, stash);
      var o :| Enumerate(o, s) && stateFile == FileBytes(s, o, cfg.IdBytes());
      StateTyped(s);
      RoundTripIff(s, o, cfg.IdBytes(), cfg.DataBytes());
    }

    lemma StateTyped(s: State)
      requires Valid() && s == State(keyToBlockId, positionMap, stash)
      ensures Typed(s, cfg.IdBytes(), cfg.DataBytes())
      ensures |s.keys| == |s.positions| == |contents| && |s.stash| <= |contents| && contents.Keys == s.keys.Keys
    {
      cfg.IdsSuffice();
      ValidFacts();
      RepresentsFacts(Whole(), keyToBlockId, contents);
      KeyedSize(positionMap, keyToBlockId);
      Conservation(Whole(), keyToBlockId, contents);
      LeavesFit();
    }

    lemma LeavesFit()
      requires Valid()
      ensures forall id :: id in positionMap ==> positionMap[id] < cfg.IdSpace()
      ensures forall id :: id in stash ==> id in positionMap
    {
      cfg.IdsSuffice();
      Pow2Monotone(cfg.levels - 1, cfg.levels);
      ValidFacts();
      assert Whole().OnOwnPath();
      forall id | id in positionMap
        ensures positionMap[id] < cfg.IdSpace()
      {
        assert ValidLeaf(cfg.levels, Whole().positions[id]);
      }
    }

    /** An access to a mapped id, from the main invariant: the machine's access for some choice. */
    method AccessId(requested: nat, op: Operation, buffer: Option<Data>, ghost mapLeaf: nat)
      returns (rc: int, out: Option<Data>, ghost x: Choice, ghost last: Lockstep.Access<Wire>)
      requires Connected() && Whole().Consistent() && requested in positionMap
      requires op.Clear? <==> buffer.None?
      requires buffer.Some? ==> |buffer.value| == cfg.DataBytes()
      requires op.Write? || exists d :: Whole().Stored(requested, d)
      modifies this`branch, this`stash, this`positionMap, this`drawn, this`noised, server, server.store
      ensures Connected() && rc == 0 && x.id == requested && x.mapLeaf == mapLeaf
      ensures CanAccess(old(Whole()), op, buffer, x)
      ensures Whole() == Accessed(old(Whole()), op, buffer, x) && out == Traversed(old(Whole()), op, buffer, x).buffer
      ensures || (Draws() == old(Draws()) + [last.requestId] + [x.newLeaf] &&
              positionMap == old(positionMap)[requested := x.newLeaf])
              || (op.Clear? && Draws() == old(Draws()) + [last.requestId] && positionMap == old(positionMap))
      ensures last.leaf == old(positionMap[requested]) && ValidLeaf(cfg.levels, last.leaf)
      ensures ValidLeaf(cfg.levels, x.newLeaf)
      ensures server.session.script == old(server.session.script) + [last]
      ensures server.trace == old(server.trace) + AccessTrace(cfg, last.requestId, last.leaf)
    {
      hide Traverse, ScanOrder, AccessTrace, WriteBack, OneCopy, Logged;
      ghost var w := Whole();
      FetchedIsReady(w, requested);
      StoredIsFetched(w, requested);
      ghost var newLeaf, order, r, left;
      rc, out, last, newLeaf, order, r, left := Access(requested, op, buffer);
      x := Choice(requested, mapLeaf, newLeaf, order);
    }

    /** Lines 195-200: the least unused number becomes the block id of the new key. It is a usable id
        exactly when not all of them are taken. */
    method AddKey(keyName: Key) returns (id: nat, ghost leaf: nat)
      requires Valid() && keyName !in keyToBlockId
      modifies this`keyToBlockId, this`positionMap, this`drawn, this`mapped
      ensures IdFor(old(Both()), cfg.IdSpace(), keyName, id) && id !in old(positionMap)
      ensures id != 0 <==> |old(positionMap)| < cfg.IdSpace() - 1
      ensures ValidLeaf(cfg.levels, leaf)
      ensures keyToBlockId == old(keyToBlockId)[keyName := id] && positionMap == old(positionMap)[id := leaf]
      ensures Connected() && Whole().Consistent() && Booked()
      ensures Whole() == old(Whole()).(positions := positionMap)
    {
      hide *;
      ValidFacts();
      var i := FindUnused(positionMap, cfg.IdSpace());
      id := ToBlockId(i);
      IdForNew(Both(), keyName, i, id);
      keyToBlockId := keyToBlockId[keyName := id];
      leaf := MapToRandomLeaf(id);
    }

    lemma IdForNew(p: Pair, keyName: Key, i: nat, id: nat)
      requires keyName !in p.keys && Searched(p.world.positions, cfg.IdSpace(), i) && id == Wrap(i, cfg.IdSpace())
      ensures IdFor(p, cfg.IdSpace(), keyName, id)
    {
      hide Wrap, Searched;
      assert cfg.IdSpace() > 0;
    }

    /** `position_map[i] = RAND()` for an id without a block */
    method MapToRandomLeaf(id: nat) returns (ghost leaf: nat)
      requires Connected() && Whole().Consistent() && Booked() && id !in positionMap && id < cfg.IdSpace()
      modifies this`positionMap, this`drawn, this`mapped
      ensures ValidLeaf(cfg.levels, leaf) && positionMap == old(positionMap)[id := leaf]
      ensures Connected() && Whole().Consistent() && Booked()
      ensures Whole() == old(Whole()).(positions := positionMap)
    {
      hide World.Consistent, Ledger.Fresh, Ledger.Leaves, LeavesSeen, OnlyAccesses, Server.Valid, Cipher.Inverts,
           MapTree;
      var drawn := Rand();
      leaf := drawn;
      MapNewId(Whole(), id, leaf);
      Inserted(old(Book()), positionMap, id, leaf);
      positionMap := positionMap[id := drawn];
      mapped := mapped[id := |Draws()| - 1];
    }

    /** The conversion of a counter to `blkid_t` */
    method ToBlockId(i: nat) returns (id: nat)
      requires cfg.Legal() && IdsIn(positionMap, cfg.IdSpace())
      requires Searched(positionMap, cfg.IdSpace(), i)
      ensures id < cfg.IdSpace() && id !in positionMap && id == Wrap(i, cfg.IdSpace())
      ensures id != 0 <==> |positionMap| < cfg.IdSpace() - 1
    {
      hide *;
      cfg.IdsSuffice();
      AtMostIdSpace(positionMap, cfg.IdSpace());
      IdsInBelow(positionMap, cfg.IdSpace());
      FreshIdIff(positionMap, cfg.IdSpace(), i);
      id := Wrap(i, cfg.IdSpace());
    }

    /** The ledger after an access that has remapped the requested id. */
    ghost method BookAccess(requested: nat, newLeaf: nat, before: Ledger, positions: map<nat, nat>,
                            trace: seq<Event>, script: seq<Lockstep.Access<Wire>>, last: Lockstep.Access<Wire>)
      requires cfg.Legal() && requested in positions && ValidLeaf(cfg.levels, last.leaf)
      requires last.leaf == positions[requested]
      requires requested in before.mapped
      requires before.Fresh(positions) && LeavesSeen(trace) == before.Leaves() && OnlyAccesses(cfg, trace, script)
      requires mapped == before.mapped && sent == before.sent && Draws() == before.draws + [last.requestId] + [newLeaf]
      requires positionMap == positions[requested := newLeaf]
      requires server.trace == trace + AccessTrace(cfg, last.requestId, last.leaf)
      requires server.session.script == script + [last]
      modifies this`mapped, this`sent
      ensures Booked()
    {
      hide AccessTrace, LeavesSeen, OnlyAccesses, Ledger.Fresh;
      Remapped(before, positions, requested, [last.requestId], newLeaf);
      mapped, sent := mapped[requested := |before.draws| + 1], sent + [mapped[requested]];
      LeavesSeenConcat(trace, AccessTrace(cfg, last.requestId, last.leaf));
      AccessShowsOneLeaf(cfg, last.requestId, last.leaf);
      OneMoreAccess(cfg, trace, script, last);
    }

    /** Lines 252-253 */
    method StoreAndForget()
      requires cfg.Legal()
      modifies this`stateFile, this`branch
      ensures Saved()
    {
      var s := State(keyToBlockId, positionMap, stash);
      stateFile := StoreState(s, cfg.IdBytes());
      branch := new Branch(cfg, 0);
      assert s == State(keyToBlockId, positionMap, stash);
    }

    /** A read or a write of a mapped id, with the ledger brought up to date. */
    method AccessMapped(requested: nat, op: Operation, value: Data, ghost mapLeaf: nat)
      returns (rc: int, out: Option<Data>, ghost x: Choice)
      requires Connected() && Whole().Consistent() && Booked() && requested in positionMap
      requires !op.Clear? && |value| == cfg.DataBytes()
      requires op.Write? || exists d :: Whole().Stored(requested, d)
      modifies this`branch, this`stash, this`positionMap, this`drawn, this`noised, this`mapped, this`sent, server,
               server.store
      ensures Connected() && Booked() && rc == 0 && x.id == requested && x.mapLeaf == mapLeaf
      ensures CanAccess(old(Whole()), op, Some(value), x)
      ensures Whole() == Accessed(old(Whole()), op, Some(value), x)
      ensures out == Traversed(old(Whole()), op, Some(value), x).buffer
      ensures OneAccess(old(server.trace))
    {
      hide *;
      BookFacts();
      WholeFacts();
      ghost var before, positions, trace, script := Book(), positionMap, server.trace, server.session.script;
      ghost var last;
      rc, out, x, last := AccessId(requested, op, Some(value), mapLeaf);
      BookAccess(requested, x.newLeaf, before, positions, trace, script, last);
      OneAccessSeen(trace, last.requestId, last.leaf);
    }

    lemma OneAccessSeen(before: seq<Event>, requestId: nat, leaf: nat)
      requires ValidLeaf(cfg.levels, leaf) && server.trace == before + AccessTrace(cfg, requestId, leaf)
      ensures OneAccess(before)
    {
    }

    /** What an operation relies on between two others. */
    lemma ValidFacts()
      requires Valid()
      ensures Connected() && Booked() && cfg.Legal() && Whole().Consistent() && Good(cfg.IdSpace(), Both(), contents)
      ensures Both() == Pair(Whole(), keyToBlockId) && Whole().positions == positionMap
      ensures contents.Keys == keyToBlockId.Keys
      ensures Whole().B == cfg.blocks && Whole().L == cfg.levels && IdsIn(positionMap, cfg.IdSpace())
      ensures forall k :: k in keyToBlockId ==>
              keyToBlockId[k] in positionMap && Whole().Stored(keyToBlockId[k], contents[k])
    {
      GoodFacts(cfg.IdSpace(), Both(), contents);
    }

    lemma ValidIff()
      requires Connected() && Booked()
      ensures Valid() <==> Good(cfg.IdSpace(), Both(), contents)
      ensures Both() == Pair(Whole(), keyToBlockId)
    {
    }

    /** With one slot per bucket every step is tidy. */
    lemma TidyIfOneSlot(p: Pair, r: Request, x: Choice)
      requires p.world.B == 1
      ensures TidyStep(p, r, x)
    {
      OneSlotIsTidy(Prepared(p, r.key, x), x);
    }

    /** `put`. A step of the machine. The key maps to the value afterwards and everything else is as
        before, if a block id is left for the key; the invariants are kept if and only if that is so and
        the scan of the stash has placed no block twice. */
    method Put(keyName: Key, value: Data) returns (rc: int, ghost x: Choice)
      requires Valid() && |value| == cfg.DataBytes()
      modifies this, server, server.store
      ensures rc == 0 && Saved() && OneAccess(old(server.trace)) && Connected()
      ensures PutStep(cfg.IdSpace(), old(Both()), keyName, value, x, Both())
      ensures Valid() <==> old(HasRoom(cfg.IdSpace(), contents, PutRequest(keyName, value))) &&
                           TidyStep(old(Both()), PutRequest(keyName, value), x)
      ensures old(HasRoom(cfg.IdSpace(), contents, PutRequest(keyName, value))) ==>
                contents == old(contents)[keyName := value] && AllStored(Whole(), keyToBlockId, contents)
      ensures cfg.blocks == 1 ==> TidyStep(old(Both()), PutRequest(keyName, value), x)
    {
      hide *;
      ValidFacts();
      ghost var p, m, r := Both(), contents, PutRequest(keyName, value);
      if keyName in keyToBlockId {
        rc, x := PutExisting(keyName, value);
      } else {
        rc, x := PutNew(keyName, value);
      }
      PutCorrect(cfg.IdSpace(), p, m, keyName, value, x, Both());
      contents := if HasRoom(cfg.IdSpace(), m, r) then Update(m, r) else m;
      UpdatePut(m, keyName, value);
      ValidIff();
      if cfg.blocks == 1 {
        TidyIfOneSlot(p, r, x);
      }
      StoreAndForget();
    }

    lemma UpdatePut(m: map<Key, Data>, keyName: Key, value: Data)
      ensures Update(m, PutRequest(keyName, value)) == m[keyName := value]
    {
    }

    method PutExisting(keyName: Key, value: Data) returns (rc: int, ghost x: Choice)
      requires Valid() && |value| == cfg.DataBytes() && keyName in keyToBlockId
      modifies this`branch, this`stash, this`positionMap, this`drawn, this`noised, this`mapped, this`sent, server,
               server.store
      ensures Connected() && Booked() && rc == 0 && OneAccess(old(server.trace))
      ensures PutStep(cfg.IdSpace(), old(Both()), keyName, value, x, Both())
    {
      hide *;
      ValidFacts();
      var out;
      rc, out, x := AccessMapped(keyToBlockId[keyName], Write, value, 1);
      ValidIff();
      PutKnownStep(old(Both()), keyName, value, x, Both());
    }

    lemma PutKnownStep(p: Pair, keyName: Key, value: Data, x: Choice, p': Pair)
      requires p.world.L >= 1 && keyName in p.keys && x.id == p.keys[keyName] && x.mapLeaf == 1
      requires CanAccess(p.world, Write, Some(value), x)
      requires p' == Pair(Accessed(p.world, Write, Some(value), x), p.keys)
      ensures PutStep(cfg.IdSpace(), p, keyName, value, x, p')
    {
      hide CanAccess, Accessed;
      CanAccessFacts(p.world, Write, Some(value), x);
      assert p.keys[keyName := x.id] == p.keys;
    }

    lemma CanAccessFacts(w: World, op: Operation, buffer: Option<Data>, x: Choice)
      requires CanAccess(w, op, buffer, x)
      ensures x.id in w.positions && w.L >= 1 && ValidLeaf(w.L, 1)
    {
    }

    method PutNew(keyName: Key, value: Data) returns (rc: int, ghost x: Choice)
      requires Valid() && |value| == cfg.DataBytes() && keyName !in keyToBlockId
      modifies this`keyToBlockId, this`branch, this`stash, this`positionMap, this`drawn, this`noised, this`mapped,
               this`sent
      modifies server, server.store
      ensures Connected() && Booked() && rc == 0 && OneAccess(old(server.trace))
      ensures PutStep(cfg.IdSpace(), old(Both()), keyName, value, x, Both())
    {
      hide *;
      ValidFacts();
      ghost var p := Both();
      var id, out;
      ghost var leaf;
      id, leaf := AddKey(keyName);
      ghost var w := Whole();
      rc, out, x := AccessMapped(id, Write, value, leaf);
      ValidIff();
      PutNewStep(p, keyName, value, x, w, Both());
    }

    lemma PutNewStep(p: Pair, keyName: Key, value: Data, x: Choice, w: World, p': Pair)
      requires keyName !in p.keys && IdFor(p, cfg.IdSpace(), keyName, x.id) && ValidLeaf(w.L, x.mapLeaf)
      requires x.id !in p.world.positions && w == p.world.(positions := p.world.positions[x.id := x.mapLeaf])
      requires CanAccess(w, Write, Some(value), x)
      requires p' == Pair(Accessed(w, Write, Some(value), x), p.keys[keyName := x.id])
      ensures PutStep(cfg.IdSpace(), p, keyName, value, x, p')
    {
      hide CanAccess, Accessed;
    }

    /** `get`. A key without a value is refused and nothing happens; otherwise the stored value is
        returned and the map that the client stands for is unchanged. The invariants are kept if and only
        if the scan of the stash has placed no block twice. */
    method Get(keyName: Key, value: Data) returns (rc: int, result: Data, ghost x: Choice)
      requires Valid()
      modifies this, server, server.store
      ensures contents == old(contents) && keyToBlockId == old(keyToBlockId) && Connected()
      ensures keyName !in contents ==>
              Valid() && rc == -1 && result == value && server.trace == old(server.trace) && Both() == old(Both())
      ensures keyName in contents ==> rc == 0 && result == contents[keyName]
      ensures keyName in contents ==>
              Saved() && OneAccess(old(server.trace)) && AllStored(Whole(), keyToBlockId, contents)
      ensures keyName in contents ==> GotStep(old(Both()), keyName, x, Some(result), Both())
      ensures Valid() <==> TidyStep(old(Both()), GetRequest(keyName), x)
      ensures cfg.blocks == 1 ==> Valid()
    {
      hide *;
      ValidFacts();
      x := Choice(0, 0, 0, []);
      if keyName !in keyToBlockId {
        NoStepIsTidy(Both(), GetRequest(keyName), x);
        return -1, value, x;
      }
      ghost var p := Both();
      rc, result, x := GetExisting(keyName);
      if cfg.blocks == 1 {
        TidyIfOneSlot(p, GetRequest(keyName), x);
      }
      StoreAndForget();
    }

    lemma NoStepIsTidy(p: Pair, r: Request, x: Choice)
      requires !r.PutRequest? && r.key !in p.keys
      ensures TidyStep(p, r, x)
    {
    }

    method GetExisting(keyName: Key) returns (rc: int, result: Data, ghost x: Choice)
      requires Valid() && keyName in keyToBlockId && keyName in contents
      modifies this`branch, this`stash, this`positionMap, this`drawn, this`noised, this`mapped, this`sent, server,
               server.store
      ensures Connected() && rc == 0 && result == contents[keyName]
      ensures OneAccess(old(server.trace)) && AllStored(Whole(), keyToBlockId, contents)
      ensures GotStep(old(Both()), keyName, x, Some(result), Both())
      ensures Valid() <==> TidyStep(old(Both()), GetRequest(keyName), x)
    {
      hide *;
      ValidFacts();
      ghost var p := Both();
      var buffer := ZeroBuffer();
      var out;
      rc, out, x := AccessMapped(keyToBlockId[keyName], Read, buffer, 1);
      ValidIff();
      GetKnownStep(p, keyName, buffer, x, out, Both());
      GotKnownStep(p, keyName, buffer, x, out, Both());
      GetCorrect(cfg.IdSpace(), p, contents, keyName, buffer, x, out, Both());
      result := out.value;
    }

    lemma GetKnownStep(p: Pair, keyName: Key, buffer: Data, x: Choice, out: Option<Data>, p': Pair)
      requires keyName in p.keys && x.id == p.keys[keyName] && CanAccess(p.world, Read, Some(buffer), x)
      requires p' == Pair(Accessed(p.world, Read, Some(buffer), x), p.keys)
      requires out == Traversed(p.world, Read, Some(buffer), x).buffer
      ensures GetStep(p, keyName, buffer, x, out, p')
    {
      hide CanAccess, Accessed, Traversed;
    }

    lemma GotKnownStep(p: Pair, keyName: Key, buffer: Data, x: Choice, out: Option<Data>, p': Pair)
      requires GetStep(p, keyName, buffer, x, out, p')
      ensures GotStep(p, keyName, x, out, p')
    {
    }

    /** `value_buffer = {0}` */
    method ZeroBuffer() returns (buffer: Data)
      requires cfg.Legal()
      ensures |buffer| == cfg.DataBytes()
    {
      buffer := seq(cfg.DataBytes(), _ => 0);
    }

    /** `clear`. The key has no value afterwards and everything else is as before. The invariants are
        kept if and only if the scan of the stash has placed no block twice. */
    method Clear(keyName: Key) returns (rc: int, ghost x: Choice)
      requires Valid()
      modifies this, server, server.store
      ensures rc == 0 && contents == old(contents) - {keyName} && Connected()
      ensures keyName !in old(contents) ==> Valid() && server.trace == old(server.trace)
      ensures keyName in old(contents) ==>
              Saved() && OneAccess(old(server.trace)) && AllStored(Whole(), keyToBlockId, contents)
      ensures ClearStep(old(Both()), keyName, x, Both())
      ensures Valid() <==> TidyStep(old(Both()), ClearRequest(keyName), x)
      ensures cfg.blocks == 1 ==> Valid()
    {
      hide *;
      ValidFacts();
      x := Choice(0, 0, 0, []);
      ghost var p := Both();
      if keyName !in keyToBlockId {
        assert contents - {keyName} == contents;
        NoStepIsTidy(p, ClearRequest(keyName), x);
        ClearUnknownStep(p, keyName, x);
        return 0, x;
      }
      rc, x := ClearExisting(keyName);
      if cfg.blocks == 1 {
        TidyIfOneSlot(p, ClearRequest(keyName), x);
      }
      StoreAndForget();
    }

    lemma ClearUnknownStep(p: Pair, keyName: Key, x: Choice)
      requires keyName !in p.keys
      ensures ClearStep(p, keyName, x, p)
    {
    }

    method ClearExisting(keyName: Key) returns (rc: int, ghost x: Choice)
      requires Valid() && keyName in keyToBlockId && keyName in contents
      modifies this, server, server.store
      ensures Connected() && rc == 0 && contents == old(contents) - {keyName}
      ensures OneAccess(old(server.trace)) && AllStored(Whole(), keyToBlockId, contents)
      ensures ClearStep(old(Both()), keyName, x, Both())
      ensures Valid() <==> TidyStep(old(Both()), ClearRequest(keyName), x)
    {
      hide *;
      ValidFacts();
      ghost var p := Both();
      rc, x := AccessCleared(keyName, keyToBlockId[keyName]);
      ghost var m := contents;
      contents := contents - {keyName};
      ValidIff();
      ClearKnownStep(p, keyName, x, Both());
      ClearCorrect(cfg.IdSpace(), p, m, keyName, x, Both());
    }

    lemma ClearKnownStep(p: Pair, keyName: Key, x: Choice, p': Pair)
      requires keyName in p.keys && x.id == p.keys[keyName] && CanAccess(p.world, Operation.Clear, None, x)
      requires var w := Accessed(p.world, Operation.Clear, None, x);
               p' == Pair(w.(positions := w.positions - {x.id}), p.keys - {keyName})
      ensures ClearStep(p, keyName, x, p')
    {
      hide CanAccess, Accessed;
    }

    /** The access of a clear, after which the id and its key are forgotten. */
    method AccessCleared(keyName: Key, requested: nat) returns (rc: int, ghost x: Choice)
      requires Connected() && Whole().Consistent() && Booked()
      requires requested in positionMap && exists d :: Whole().Stored(requested, d)
      modifies this`branch, this`stash, this`positionMap, this`keyToBlockId, this`drawn, this`noised, this`mapped,
               this`sent
      modifies server, server.store
      ensures Connected() && Booked() && rc == 0 && x.id == requested
      ensures CanAccess(old(Whole()), Operation.Clear, None, x)
      ensures var w := Accessed(old(Whole()), Operation.Clear, None, x);
              Whole() == w.(positions := w.positions - {requested})
      ensures keyToBlockId == old(keyToBlockId) - {keyName}
      ensures OneAccess(old(server.trace))
    {
      hide *;
      BookFacts();
      WholeFacts();
      ghost var before, positions, trace, script := Book(), positionMap, server.trace, server.session.script;
      var out;
      ghost var last;
      rc, out, x, last := AccessId(requested, Operation.Clear, None, 1);
      OneAccessSeen(trace, last.requestId, last.leaf);
      Forget(keyName, requested);
      BookClear(requested, x.newLeaf, before, positions, trace, script, last);
    }

    /** Lines 374-375 */
    method Forget(keyName: Key, requested: nat)
      requires Connected() && cfg.Legal()
      modifies this`positionMap, this`keyToBlockId
      ensures positionMap == old(positionMap) - {requested} && keyToBlockId == old(keyToBlockId) - {keyName}
      ensures Connected() && Whole() == old(Whole()).(positions := old(Whole()).positions - {requested})
    {
      positionMap := positionMap - {requested};
      keyToBlockId := keyToBlockId - {keyName};
    }

    /** The ledger after an access whose id has been erased. */
    ghost method BookClear(requested: nat, newLeaf: nat, before: Ledger, positions: map<nat, nat>,
                           trace: seq<Event>, script: seq<Lockstep.Access<Wire>>, last: Lockstep.Access<Wire>)
      requires cfg.Legal() && requested in positions && ValidLeaf(cfg.levels, last.leaf)
      requires last.leaf == positions[requested]
      requires requested in before.mapped
      requires before.Fresh(positions) && LeavesSeen(trace) == before.Leaves() && OnlyAccesses(cfg, trace, script)
      requires mapped == before.mapped && sent == before.sent
      requires Draws() == before.draws + [last.requestId] + [newLeaf] || Draws() == before.draws + [last.requestId]
      requires positionMap == positions - {requested} || positionMap == positions[requested := newLeaf] - {requested}
      requires server.trace == trace + AccessTrace(cfg, last.requestId, last.leaf)
      requires server.session.script == script + [last]
      modifies this`mapped, this`sent
      ensures Booked()
    {
      hide AccessTrace, LeavesSeen, OnlyAccesses, Ledger.Fresh;
      assert positionMap == positions - {requested};
      before.SendAndForget(positions, requested);
      mapped, sent := mapped - {requested}, sent + [mapped[requested]];
      var l := Ledger(before.draws, mapped, sent);
      l.DrawMore(positionMap, Draws()[|before.draws|..]);
      assert Draws() == before.draws + Draws()[|before.draws|..];
      LeavesSeenConcat(trace, AccessTrace(cfg, last.requestId, last.leaf));
      AccessShowsOneLeaf(cfg, last.requestId, last.leaf);
      OneMoreAccess(cfg, trace, script, last);
    }

    /** `read_range`: the values of the keys from `begin` to `end`, in ascending key order, are appended
        to the caller's vector. With `begin` after `end` there are none, and the walk ends only if no key
        lies strictly between the two, see `KeyOrder.WalkEndsIff`. */
    method ReadRange(begin: Key, end: Key, data: seq<Data>) returns (rc: int, result: seq<Data>)
      requires Valid() && cfg.blocks == 1 && NoneBetween(keyToBlockId.Keys, end, begin)
      modifies this, server, server.store
      ensures Valid() && rc == 0 && contents == old(contents)
      ensures result == data + ValuesOf(contents, Ascending(Between(contents.Keys, begin, end)))
    {
      hide *;
      ValidFacts();
      ghost var keys := keyToBlockId.Keys;
      result := data;
      var it := Bound(keyToBlockId.Keys, begin, false);
      var stop := Bound(keyToBlockId.Keys, end, true);
      ghost var todo := From(keys, begin, false);
      WalkStarts(keys, begin, end, it);
      rc := 0;
      while rc == 0 && it != stop
        invariant rc == 0 && Valid() && contents == old(contents) && keyToBlockId == old(keyToBlockId)
        invariant IsBound(stop, keys, end, true)
        invariant Walking(keys, end, it, todo) && todo <= From(keys, begin, false)
        invariant result + ValuesOf(contents, Ascending(todo * Between(keys, begin, end))) ==
                  data + ValuesOf(contents, Ascending(Between(keys, begin, end)))
        decreases todo
      {
        WalkStep(keys, begin, end, it, stop, todo);
        ValidFacts();
        ValuesUnfold(contents, todo, Between(keys, begin, end), it.value, result);
        var value;
        ghost var x;
        rc, value, x := Get(it.value, []);
        result := result + [value];
        var passed := it.value;
        it := Bound(keyToBlockId.Keys, passed, true);
        stop := Bound(keyToBlockId.Keys, end, true);
        WalkAdvances(keys, end, passed, it, todo);
        todo := todo - {passed};
      }
      WalkStep(keys, begin, end, it, stop, todo);
      ValuesOfNone(contents);
      ValidFacts();
    }

    /** The server has seen one more access, to some leaf under some request id, and nothing else. */
    ghost predicate OneAccess(before: seq<Event>)
      reads server`trace
    {
      exists requestId, leaf :: ValidLeaf(cfg.levels, leaf) &&
          server.trace == before + AccessTrace(cfg, requestId, leaf)
    }
  }

  /** The values of the listed keys. */
  function ValuesOf(m: map<Key, Data>, keys: seq<Key>): (v: seq<Data>)
    ensures |v| == |keys|
  {
    seq(|keys|, i requires 0 <= i < |keys| => if keys[i] in m then m[keys[i]] else [])
  }

  lemma ValuesOfNone(m: map<Key, Data>)
    ensures ValuesOf(m, Ascending({})) == []
  {
  }

  lemma ValuesUnfold(m: map<Key, Data>, todo: set<Key>, range: set<Key>, k: Key, prefix: seq<Data>)
    requires IsLeast(k, todo * range) && k in m
    ensures prefix + ValuesOf(m, Ascending(todo * range)) ==
            prefix + [m[k]] + ValuesOf(m, Ascending((todo - {k}) * range))
  {
    AscendingUnfolds(todo * range, k);
    assert todo * range - {k} == (todo - {k}) * range;
  }

  lemma ViewAllSet(p: seq<Plain>, i: nat, x: Plain)
    requires i < |p|
    ensures ViewAll(p[i := x]) == ViewAll(p)[i := MakeSlot(x.id, x.data)]
    ensures x.id == 0 ==> MakeSlot(x.id, x.data) == Free
  {
  }

  /** The data of the free blocks */
  ghost function FillersOf(p: seq<Plain>): set<Data> {
    set i | 0 <= i < |p| && p[i].id == 0 :: p[i].data
  }

  lemma SetFillers(p: seq<Plain>, i: nat, x: Plain)
    requires i < |p|
    ensures FillersOf(p[i := x]) <= FillersOf(p) + (if x.id == 0 then {x.data} else {})
  {
  }

  lemma SwapFillers(p: seq<Plain>, i: nat, j: nat)
    requires i < |p| && j < |p|
    ensures FillersOf(p[i := p[j]][j := p[i]]) == FillersOf(p)
  {
    var q := p[i := p[j]][j := p[i]];
    forall d | d in FillersOf(p)
      ensures d in FillersOf(q)
    {
      var k :| 0 <= k < |p| && p[k].id == 0 && p[k].data == d;
      assert q[if k == i then j else if k == j then i else k] == p[k];
    }
  }

  function SetOf(s: seq<nat>): set<nat> {
    set x | x in s
  }

  lemma SetOfMore(s: seq<nat>, x: nat)
    ensures SetOf(s + [x]) == SetOf(s) + {x}
  {
  }

  lemma SetOfHas(s: seq<nat>, x: nat)
    ensures x in SetOf(s) <==> x in s
  {
  }

  lemma FittingFacts(c: Context, st: Store, i: nat)
    requires Fitting(c, st) && i < |st.branch| && st.branch[i].Full?
    ensures st.branch[i].id in c.positions
  {
  }

  /** What the branch loop leaves was held before. */
  lemma HeldBefore(c: Context, st: Store, w: Store, id: nat)
    requires Ready(c, st) && (Walk(c, st, 0) == Missing(w) || exists at :: Walk(c, st, 0) == Found(w, at))
    ensures forall d :: Holds(w, id, d) ==> Holds(st, id, d)
  {
    WalkFromStart(c, st);
    hide Walk, Holds, Ready;
  }

  lemma HoldsAt(w: Store, i: nat, id: nat, data: Data)
    requires i < |w.branch| && w.branch[i] == Full(id, data)
    ensures Holds(w, id, data)
  {
    assert InBranch(w.branch, id, data);
  }

  lemma HoldsInStash(w: Store, id: nat)
    ensures id in w.stash ==> Holds(w, id, w.stash[id])
  {
  }

  lemma OrderFits(c: Context, st: Store, w: Store, order: seq<nat>)
    requires Walk(c, st, 0) == Missing(w) && Fitting(c, w) && Enumerates(order, w.stash.Keys)
    ensures ScanOrder(c, st, order)
    ensures NoZero(c, order) && forall i :: 0 <= i < |order| ==> order[i] in w.stash && order[i] in c.positions
  {
  }

  lemma ScanAllIs(c: Context, w: Store, order: seq<nat>)
    requires Enumerates(order, w.stash.Keys) && NoZero(c, order)
    ensures ScanAll(c, w, order) == Scan(c, Scanned(w.branch, {}, 0), w.stash, order)
  {
  }

  /** The requested block is not among the placed ones. */
  lemma NotPlaced(c: Context, w: Store, order: seq<nat>)
    requires Enumerates(order, w.stash.Keys) && NoZero(c, order) && Scanning(c, w, ScanAll(c, w, order), order)
    requires ScanAll(c, w, order).at < |order|
    ensures c.requested in w.stash && c.requested !in ScanAll(c, w, order).placed
  {
  }

  lemma NotInOrder(c: Context, w: Store, order: seq<nat>)
    requires Enumerates(order, w.stash.Keys) && NoZero(c, order) && Scanning(c, w, ScanAll(c, w, order), order)
    requires ScanAll(c, w, order).at == |order|
    ensures c.requested !in w.stash
  {
  }

  lemma EraseAbsent(m: map<nat, Data>, keys: seq<nat>, id: nat)
    requires id !in m
    ensures m - SetOf(keys) - {id} == m - SetOf(keys)
  {
  }

  lemma GetOrIs(buffer: Option<Data>)
    ensures buffer.Some? ==> buffer.GetOr([]) == buffer.value
  {
  }

  lemma EraseUpdated(m: map<nat, Data>, id: nat, data: Data, keys: seq<nat>)
    requires id !in keys
    ensures m[id := data] - SetOf(keys + [id]) == m - SetOf(keys) - {id}
    ensures m[id := data] - SetOf(keys) == (m - SetOf(keys) - {id})[id := data]
  {
    assert SetOf(keys + [id]) == SetOf(keys) + {id};
  }
}
