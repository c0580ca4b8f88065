/** The access loop of src/server.cpp, with the database as an array of buckets. */
module PathServer {
  import opened Arithmetic
  import opened Paths
  import opened Bytes
  import opened Slots
  import opened Configuration
  import opened Tree
  import opened TreeInit
  import opened Lockstep

  type Wire = seq<byte>

  /** What anyone who watches the server and its database sees. */
  datatype Event =
    | ReadFlag
    | WroteFlag
    | SentFlag(up: bool)
    | ReceivedRequest(id: nat)
    | ReceivedLeaf(leaf: nat)
    | SentCount(blocks: nat)
    | ReadBucket(bucket: nat)
    | SentBlock(bytes: nat)
    | ReceivedBlock(bytes: nat)
    | WroteBucket(bucket: nat)
    | Acknowledged(id: nat)

  function BucketEvents(buckets: seq<nat>, written: bool): (e: seq<Event>)
    ensures |e| == |buckets|
  {
    seq(|buckets|, k requires 0 <= k < |buckets| => if written then WroteBucket(buckets[k]) else ReadBucket(buckets[k]))
  }

  function BlockEvents(bytes: nat, n: nat, received: bool): (e: seq<Event>)
    ensures |e| == n
  {
    seq(n, _ => if received then ReceivedBlock(bytes) else SentBlock(bytes))
  }

  lemma BlockEventsStep(bytes: nat, n: nat, received: bool)
    ensures BlockEvents(bytes, n + 1, received) ==
            BlockEvents(bytes, n, received) + [if received then ReceivedBlock(bytes) else SentBlock(bytes)]
    ensures BlockEvents(bytes, 0, received) == []
  {
  }

  lemma BucketEventsStep(buckets: seq<nat>, n: nat, written: bool)
    requires n < |buckets|
    ensures BucketEvents(buckets[..n + 1], written) ==
            BucketEvents(buckets[..n], written) + [if written then WroteBucket(buckets[n]) else ReadBucket(buckets[n])]
  {
  }

  /** What an access shows until the branch has been sent, and after that: functions of the request
      id and the leaf. */
  function FetchTrace(cfg: Config, requestId: nat, leaf: nat): seq<Event>
    requires ValidLeaf(cfg.levels, leaf)
  {
    [ReceivedRequest(requestId), ReceivedLeaf(leaf), SentCount(Start(cfg.blocks, cfg.levels))] +
    BucketEvents(Path(cfg.levels, leaf), false) +
    BlockEvents(cfg.blockSize, Start(cfg.blocks, cfg.levels), false)
  }

  function StoreTrace(cfg: Config, requestId: nat, leaf: nat): seq<Event>
    requires ValidLeaf(cfg.levels, leaf)
  {
    BlockEvents(cfg.blockSize, Start(cfg.blocks, cfg.levels), true) +
    BucketEvents(Path(cfg.levels, leaf), true) +
    [Acknowledged(requestId)]
  }

  function AccessTrace(cfg: Config, requestId: nat, leaf: nat): seq<Event>
    requires ValidLeaf(cfg.levels, leaf)
  {
    FetchTrace(cfg, requestId, leaf) + StoreTrace(cfg, requestId, leaf)
  }

  lemma TraceJoins(before: seq<Event>, cfg: Config, requestId: nat, leaf: nat)
    requires ValidLeaf(cfg.levels, leaf)
    ensures before + FetchTrace(cfg, requestId, leaf) + StoreTrace(cfg, requestId, leaf) ==
            before + AccessTrace(cfg, requestId, leaf)
  {
  }

  /** The first `n` buckets arrive and are stored. */
  function FillTrace(cfg: Config, n: nat): seq<Event> {
    if n == 0 then [] else FillTrace(cfg, n - 1) + BlockEvents(cfg.blockSize, cfg.blocks, true) + [WroteBucket(n)]
  }

  /** The first connection. */
  function SetupTrace(cfg: Config): seq<Event> {
    [ReadFlag, SentFlag(false)] + FillTrace(cfg, Pow2(cfg.levels) - 1) + [WroteFlag, SentFlag(true)]
  }

  /** The accesses of a session one after the other: a function of their request ids and leaves. */
  ghost function AccessesTrace(cfg: Config, script: seq<Access<Wire>>): seq<Event>
    requires forall i :: 0 <= i < |script| ==> ValidLeaf(cfg.levels, script[i].leaf)
  {
    if script == [] then []
    else
      var last := script[|script| - 1];
      AccessesTrace(cfg, script[..|script| - 1]) + AccessTrace(cfg, last.requestId, last.leaf)
  }

  /** After the first connection the trace is that of the session's accesses and nothing else. */
  ghost predicate OnlyAccesses(cfg: Config, trace: seq<Event>, script: seq<Access<Wire>>) {
    && (forall i :: 0 <= i < |script| ==> ValidLeaf(cfg.levels, script[i].leaf))
    && trace == SetupTrace(cfg) + AccessesTrace(cfg, script)
  }

  lemma OneMoreAccess(cfg: Config, trace: seq<Event>, script: seq<Access<Wire>>, last: Access<Wire>)
    requires OnlyAccesses(cfg, trace, script) && ValidLeaf(cfg.levels, last.leaf)
    ensures OnlyAccesses(cfg, trace + AccessTrace(cfg, last.requestId, last.leaf), script + [last])
  {
    hide AccessTrace, SetupTrace;
    var more := script + [last];
    assert more[..|more| - 1] == script;
    assert SetupTrace(cfg) + (AccessesTrace(cfg, script) + AccessTrace(cfg, last.requestId, last.leaf)) ==
           SetupTrace(cfg) + AccessesTrace(cfg, script) + AccessTrace(cfg, last.requestId, last.leaf);
  }

  // ----- The session that the server has taken part in -----

  /** The server's array after the accesses of the session, one after the other, is `t`. */
  ghost predicate Logged(cfg: Config, session: Session<Wire>, t: Buckets<Wire>) {
    && session.Valid() && session.L == cfg.levels && session.B == cfg.blocks
    && TreeAfter(session, |session.script|) == t
  }

  lemma {:induction false} TreeAfterPrefix(s: Session<Wire>, last: Access<Wire>, k: nat)
    requires s.Valid() && s.(script := s.script + [last]).Valid() && k <= |s.script|
    ensures TreeAfter(s.(script := s.script + [last]), k) == TreeAfter(s, k)
  {
    hide WriteBack, Fetch, Filled, Lockstep.Session.Valid;
    if k > 0 {
      var s' := s.(script := s.script + [last]);
      TreeAfterPrefix(s, last, k - 1);
      assert s'.script[k - 1] == s.script[k - 1];
      assert Fetched(s', k - 1) == Fetched(s, k - 1);
      assert Sent(s', k - 1) == Sent(s, k - 1);
    }
  }

  /** The access in which the client answers the branch that it is sent by `blocks`. */
  ghost function Answering(requestId: nat, leaf: nat, fetched: seq<Wire>, blocks: seq<Wire>): (a: Access<Wire>) {
    Access(requestId, leaf, br => if br == fetched then blocks else br)
  }

  lemma AnsweringIs(requestId: nat, leaf: nat, fetched: seq<Wire>, blocks: seq<Wire>)
    ensures var a := Answering(requestId, leaf, fetched, blocks);
            a.requestId == requestId && a.leaf == leaf && a.rewrite(fetched) == blocks
  {
  }

  lemma LogAccess(cfg: Config, s: Session<Wire>, t: Buckets<Wire>, requestId: nat, leaf: nat, blocks: seq<Wire>)
    requires Shaped(cfg.levels, cfg.blocks, t) && Logged(cfg, s, t)
    requires requestId >= 1 && ValidLeaf(cfg.levels, leaf) && |blocks| == Start(cfg.blocks, cfg.levels)
    ensures var last := Answering(requestId, leaf, Fetch(cfg.levels, cfg.blocks, t, leaf), blocks);
            Logged(cfg, s.(script := s.script + [last]), WriteBack(cfg.levels, cfg.blocks, t, leaf, blocks))
  {
    hide WriteBack, Fetch, Filled, Shaped;
    var last := Answering(requestId, leaf, Fetch(cfg.levels, cfg.blocks, t, leaf), blocks);
    var n := |s.script|;
    var s' := s.(script := s.script + [last]);
    assert s'.script[n] == last;
    TreeAfterPrefix(s, last, n);
    assert Fetched(s', n) == Fetch(cfg.levels, cfg.blocks, t, leaf);
    assert Sent(s', n) == blocks;
  }

  class Server {
    const cfg: Config
    const store: array<seq<Wire>>
    ghost var trace: seq<Event>
    ghost var session: Session<Wire>

    // locals of the access loop while an access is under way
    var stopped: bool
    var busy: bool
    var requestId: nat
    var indexes: seq<nat>
    ghost var leaf: nat

    /** The tree has its shape, and so has an access that is under way. */
    ghost predicate Sound()
      reads this`busy, this`requestId, this`indexes, this`leaf, store
    {
      && cfg.Legal()
      && Shaped(cfg.levels, cfg.blocks, store[..])
      && WellSized(store[..])
      && (busy ==> requestId >= 1 && ValidLeaf(cfg.levels, leaf) && indexes == Path(cfg.levels, leaf))
    }

    ghost predicate Valid()
      reads this`busy, this`requestId, this`indexes, this`leaf, this`session, store
    {
      Sound() && Logged(cfg, session, store[..])
    }

    ghost predicate WellSized(t: Buckets<Wire>) {
      forall n, o :: 1 <= n < |t| && 0 <= o < |t[n]| ==> |t[n][o]| == cfg.blockSize
    }

    /** A server whose database is empty. */
    constructor (cfg: Config)
      requires cfg.Legal()
      ensures this.cfg == cfg && store.Length == Pow2(cfg.levels) && fresh(store) && store[0] == []
      ensures !busy && !stopped && trace == []
    {
      this.cfg := cfg;
      store := new seq<Wire>[Pow2(cfg.levels)](_ => []);
      stopped, busy, requestId, indexes, leaf, trace := false, false, 0, [], 0, [];
      session := Session(cfg.levels, cfg.blocks, [], [], false);
    }

    // ----- The database and the connection: every access is seen -----

    /** `fdb_transaction_get` of a bucket */
    method GetBucket(n: nat) returns (bucket: seq<Wire>)
      requires n < store.Length
      modifies this`trace
      ensures bucket == store[n] && trace == old(trace) + [ReadBucket(n)]
    {
      bucket := store[n];
      trace := trace + [ReadBucket(n)];
    }

    /** `fdb_transaction_set` of a bucket */
    method SetBucket(n: nat, bucket: seq<Wire>)
      requires n < store.Length
      modifies this`trace, store
      ensures store[..] == old(store[..])[n := bucket] && trace == old(trace) + [WroteBucket(n)]
    {
      store[n] := bucket;
      trace := trace + [WroteBucket(n)];
    }

    /** `send` of a block: it is appended to what the client receives. */
    method SendBlock(sent: seq<Wire>, block: Wire) returns (sent': seq<Wire>)
      modifies this`trace
      ensures sent' == sent + [block] && trace == old(trace) + [SentBlock(|block|)]
    {
      sent' := sent + [block];
      trace := trace + [SentBlock(|block|)];
    }

    /** `recv` of a block, the first of those that the client still sends. */
    method ReceiveBlock(incoming: seq<Wire>) returns (block: Wire, rest: seq<Wire>)
      requires incoming != []
      modifies this`trace
      ensures incoming == [block] + rest && trace == old(trace) + [ReceivedBlock(|block|)]
    {
      block, rest := incoming[0], incoming[1..];
      trace := trace + [ReceivedBlock(|block|)];
    }

    /** Any other message or flag */
    method Record(event: Event)
      modifies this`trace
      ensures trace == old(trace) + [event]
    {
      trace := trace + [event];
    }

    // ----- The first connection -----

    /** Lines 267-402: the buckets are filled one after the other with the blocks that arrive. The index
        is a block id and wraps; the loop visits each bucket 1..2^L-1 once and ends all the same, also
        when the last bucket is the largest block id. `batches` are the sizes of the commits. */
    method SetupFdb(blocks: seq<Wire>) returns (batches: seq<nat>, ghost visited: seq<nat>)
      requires cfg.Legal() && !busy && store.Length == Pow2(cfg.levels) && store[0] == []
      requires |blocks| == Start(cfg.blocks, Pow2(cfg.levels) - 1)
      requires forall i :: 0 <= i < |blocks| ==> |blocks[i]| == cfg.blockSize
      modifies this`trace, this`session, store
      ensures Valid() && session == Session(cfg.levels, cfg.blocks, blocks, [], false)
      ensures trace == old(trace) + SetupTrace(cfg)
      ensures visited == OneTo(Pow2(cfg.levels) - 1)
      ensures forall n :: 1 <= n < store.Length ==> IsBucketOf(blocks, n, store[n])
      ensures Sum(batches) == Pow2(cfg.levels) - 1 && FullButLast(batches)
      ensures forall i :: 0 <= i < |batches| ==> batches[i] * (cfg.blockSize * cfg.blocks) <= 9000000
    {
      hide *;
      Record(ReadFlag);
      Record(SentFlag(false));
      batches, visited := FillTree(blocks);
      Record(WroteFlag);
      Record(SentFlag(true));
      SetupTraceJoins(old(trace));
      session := Session(cfg.levels, cfg.blocks, blocks, [], false);
      FilledIsValid(blocks);
    }

    lemma FilledIsValid(blocks: seq<Wire>)
      requires cfg.Legal() && !busy && store.Length == Pow2(cfg.levels) && store[0] == []
      requires |blocks| == Start(cfg.blocks, Pow2(cfg.levels) - 1)
      requires forall i :: 0 <= i < |blocks| ==> |blocks[i]| == cfg.blockSize
      requires forall n :: 1 <= n < store.Length ==> IsBucketOf(blocks, n, store[n])
      requires session == Session(cfg.levels, cfg.blocks, blocks, [], false)
      ensures Valid()
    {
      hide Sound, Logged, IsBucketOf;
      FilledIsSound(blocks);
      FilledIsLogged(blocks);
    }

    lemma SetupTraceJoins(before: seq<Event>)
      ensures before + [ReadFlag] + [SentFlag(false)] + FillTrace(cfg, Pow2(cfg.levels) - 1) + [WroteFlag] +
              [SentFlag(true)] ==
              before + SetupTrace(cfg)
    {
      hide FillTrace, Pow2;
    }

    /** Lines 315-370 */
    method FillTree(blocks: seq<Wire>) returns (batches: seq<nat>, ghost visited: seq<nat>)
      requires cfg.Legal() && !busy && store.Length == Pow2(cfg.levels) && store[0] == []
      requires |blocks| == Start(cfg.blocks, Pow2(cfg.levels) - 1)
      requires forall i :: 0 <= i < |blocks| ==> |blocks[i]| == cfg.blockSize
      modifies this`trace, store
      ensures store[0] == [] && trace == old(trace) + FillTrace(cfg, Pow2(cfg.levels) - 1)
      ensures visited == OneTo(Pow2(cfg.levels) - 1)
      ensures forall n :: 1 <= n < store.Length ==> IsBucketOf(blocks, n, store[n])
      ensures Sum(batches) == Pow2(cfg.levels) - 1 && FullButLast(batches)
      ensures forall i :: 0 <= i < |batches| ==> batches[i] * (cfg.blockSize * cfg.blocks) <= 9000000
    {
      hide *;
      var buckets, idSpace, bucketBytes := Sizes();
      var perBatch := PerBatch(bucketBytes);
      CountFromZero(bucketBytes);
      batches, visited := [], [];
      var batch, treeIndex, rest := 0, 1, blocks;
      StartOfNone();
      while treeIndex <= buckets && treeIndex != 0
        invariant |visited| <= buckets && visited == OneTo(|visited|)
        invariant treeIndex == if |visited| + 1 == idSpace then 0 else |visited| + 1
        invariant Counted(|visited|, perBatch, batch, batches)
        invariant Start(cfg.blocks, |visited|) <= |blocks| && rest == blocks[Start(cfg.blocks, |visited|)..]
        invariant forall n :: 1 <= n <= |visited| ==> IsBucketOf(blocks, n, store[n])
        invariant store[0] == [] && trace == old(trace) + FillTrace(cfg, |visited|)
        decreases buckets - |visited|
      {
        rest := FillBucketFrom(blocks, rest, treeIndex);
        FillTraceStep(old(trace), treeIndex);
        visited := visited + [treeIndex];
        batch, batches := CountBucket(treeIndex, perBatch, batch, batches);
        treeIndex := NextIndex(treeIndex, idSpace);
      }
      batches := LastBatch(bucketBytes, buckets, batch, batches);
      BatchFits(bucketBytes, 0);
      AllButLast(bucketBytes, batches);
    }

    lemma AllButLast(bytes: nat, batches: seq<nat>)
      requires bytes == cfg.blockSize * cfg.blocks > 0 && PerBatch(bytes) > 0
      requires |batches| > 0 && batches[|batches| - 1] == (Pow2(cfg.levels) - 1) % PerBatch(bytes)
      requires forall i :: 0 <= i < |batches| - 1 ==> batches[i] == PerBatch(bytes)
      ensures FullButLast(batches)
    {
    }

    lemma FillTraceStep(before: seq<Event>, n: nat)
      requires n > 0
      ensures before + FillTrace(cfg, n - 1) + (BlockEvents(cfg.blockSize, cfg.blocks, true) + [WroteBucket(n)]) ==
              before + FillTrace(cfg, n)
    {
    }

    lemma StartOfNone()
      ensures Start(cfg.blocks, 0) == 0 && FillTrace(cfg, 0) == []
    {
    }

    /** Every commit but the last is as large as the limit allows, and the last takes the rest. */
    ghost predicate FullButLast(batches: seq<nat>) {
      var bytes := cfg.blockSize * cfg.blocks;
      && bytes > 0 && PerBatch(bytes) > 0
      && (forall i :: 0 <= i < |batches| - 1 ==> batches[i] == PerBatch(bytes))
      && |batches| > 0 && batches[|batches| - 1] == (Pow2(cfg.levels) - 1) % PerBatch(bytes)
    }

    /** Bucket `n` holds its share of the blocks. */
    ghost predicate IsBucketOf(blocks: seq<Wire>, n: nat, bucket: seq<Wire>) {
      n >= 1 && Start(cfg.blocks, n) <= |blocks| &&
      bucket == blocks[Start(cfg.blocks, n - 1)..Start(cfg.blocks, n)]
    }

    /** BUCKETS_PER_TREE, the number of block ids and the size of a bucket */
    method Sizes() returns (buckets: nat, idSpace: nat, bucketBytes: nat)
      requires cfg.Legal()
      ensures buckets == Pow2(cfg.levels) - 1 && 1 <= buckets < idSpace
      ensures bucketBytes == cfg.blockSize * cfg.blocks && 0 < bucketBytes <= 9000000
    {
      cfg.IdsSuffice();
      cfg.BucketFits();
      Pow2Monotone(1, cfg.levels);
      buckets, idSpace, bucketBytes := Pow2(cfg.levels) - 1, cfg.IdSpace(), cfg.blockSize * cfg.blocks;
    }

    /** Lines 320-331 */
    method FillBucketFrom(ghost blocks: seq<Wire>, incoming: seq<Wire>, treeIndex: nat) returns (rest: seq<Wire>)
      requires 1 <= treeIndex < store.Length == Pow2(cfg.levels)
      requires |blocks| == Start(cfg.blocks, Pow2(cfg.levels) - 1)
      requires Start(cfg.blocks, treeIndex - 1) <= |blocks| && incoming == blocks[Start(cfg.blocks, treeIndex - 1)..]
      requires forall i :: 0 <= i < |blocks| ==> |blocks[i]| == cfg.blockSize
      modifies this`trace, store
      ensures IsBucketOf(blocks, treeIndex, store[treeIndex])
      ensures forall n :: 0 <= n < store.Length && n != treeIndex ==> store[n] == old(store[n])
      ensures Start(cfg.blocks, treeIndex) <= |blocks| && rest == blocks[Start(cfg.blocks, treeIndex)..]
      ensures trace == old(trace) + (BlockEvents(cfg.blockSize, cfg.blocks, true) + [WroteBucket(treeIndex)])
    {
      hide Pow2;
      StartMonotone(cfg.blocks, treeIndex, Pow2(cfg.levels) - 1);
      var bucket;
      bucket, rest := ReceiveBlocks(incoming, cfg.blocks);
      SetBucket(treeIndex, bucket);
      assert store[..][treeIndex] == bucket;
    }

    /** `recv` of the next `n` blocks, in order */
    method ReceiveBlocks(incoming: seq<Wire>, n: nat) returns (blocks: seq<Wire>, rest: seq<Wire>)
      requires n <= |incoming| && forall i :: 0 <= i < |incoming| ==> |incoming[i]| == cfg.blockSize
      modifies this`trace
      ensures blocks == incoming[..n] && rest == incoming[n..]
      ensures trace == old(trace) + BlockEvents(cfg.blockSize, n, true)
    {
      blocks, rest := [], incoming;
      var i := 0;
      while i < n
        invariant 0 <= i <= n && blocks == incoming[..i] && rest == incoming[i..]
        invariant trace == old(trace) + BlockEvents(cfg.blockSize, i, true)
      {
        var block;
        assert rest[0] == incoming[i] && rest[1..] == incoming[i + 1..];
        block, rest := ReceiveBlock(rest);
        blocks := blocks + [block];
        BlockEventsStep(cfg.blockSize, i, true);
        i := i + 1;
      }
    }

    lemma FilledIsSound(blocks: seq<Wire>)
      requires cfg.Legal() && !busy && store.Length == Pow2(cfg.levels)
      requires forall i :: 0 <= i < |blocks| ==> |blocks[i]| == cfg.blockSize
      requires forall n :: 1 <= n < store.Length ==> IsBucketOf(blocks, n, store[n])
      ensures Sound()
    {
      forall n | 1 <= n < store.Length
        ensures |store[n]| == cfg.blocks && forall o :: 0 <= o < |store[n]| ==> |store[n][o]| == cfg.blockSize
      {
        assert IsBucketOf(blocks, n, store[n]);
        assert Start(cfg.blocks, n) == Start(cfg.blocks, n - 1) + cfg.blocks;
      }
    }

    lemma FilledIsLogged(blocks: seq<Wire>)
      requires cfg.Legal() && store.Length == Pow2(cfg.levels) && store[0] == []
      requires |blocks| == Start(cfg.blocks, Pow2(cfg.levels) - 1)
      requires forall n :: 1 <= n < store.Length ==> IsBucketOf(blocks, n, store[n])
      ensures Logged(cfg, Session(cfg.levels, cfg.blocks, blocks, [], false), store[..])
    {
      var t := Filled(cfg.levels, cfg.blocks, blocks);
      forall n | 0 <= n < store.Length
        ensures t[n] == store[n]
      {
        assert n > 0 ==> IsBucketOf(blocks, n, store[n]);
        assert t[n] == Share(cfg.blocks, blocks, n);
      }
      assert t == store[..];
    }

    // ----- An access -----

    /** Lines 84-162: receive the request and the leaf, read the path, send its blocks; request id 0 stops
        the server. The trace is what the primitives above have recorded on the way. */
    method BeginAccess(request: nat, leafId: nat) returns (rc: int, blocks: seq<Wire>)
      requires Valid() && !busy && !stopped
      modifies this`trace, this`stopped, this`busy, this`requestId, this`indexes, this`leaf
      ensures Valid() && (stopped <==> request == 0)
      ensures rc == 0 <==> request != 0 && ValidLeaf(cfg.levels, leafId)
      ensures rc != 0 ==> rc == -1 && !busy && blocks == []
      ensures request == 0 ==> trace == old(trace) + [ReceivedRequest(request)]
      ensures request != 0 && rc != 0 ==> trace == old(trace) + [ReceivedRequest(request), ReceivedLeaf(leafId)]
      ensures rc == 0 ==> busy && requestId == request && leaf == leafId
      ensures rc == 0 ==> blocks == Fetch(cfg.levels, cfg.blocks, store[..], leafId)
      ensures rc == 0 ==> forall i :: 0 <= i < |blocks| ==> |blocks[i]| == cfg.blockSize
      ensures rc == 0 ==> trace == old(trace) + FetchTrace(cfg, request, leafId)
    {
      hide *;
      Record(ReceivedRequest(request));
      blocks := [];
      if request == 0 {
        stopped, rc := true, -1;
        return;
      }
      Record(ReceivedLeaf(leafId));
      rc := FindBranch(request, leafId);
      if rc != 0 {
        return;
      }
      SendNumBlocks();
      FetchedWellSized(leafId);
      var branch := GetBranchFromFdb();
      blocks := SendBranchToClient(branch[..]);
      FetchTraceJoins(old(trace), request, leafId);
    }

    /** The order of the events of `BeginAccess` */
    lemma FetchTraceJoins(before: seq<Event>, request: nat, leafId: nat)
      requires ValidLeaf(cfg.levels, leafId)
      ensures before + [ReceivedRequest(request)] + [ReceivedLeaf(leafId)] +
              [SentCount(Start(cfg.blocks, cfg.levels))] +
              BucketEvents(Path(cfg.levels, leafId), false) +
                  BlockEvents(cfg.blockSize, Start(cfg.blocks, cfg.levels), false) ==
              before + FetchTrace(cfg, request, leafId)
    {
      hide BucketEvents, BlockEvents, Path, Start;
    }

    /** Lines 128-134 */
    method FindBranch(request: nat, leafId: nat) returns (rc: int)
      requires Valid() && !busy && request != 0
      modifies this`busy, this`requestId, this`indexes, this`leaf
      ensures Valid() && Sound()
      ensures rc == 0 <==> ValidLeaf(cfg.levels, leafId)
      ensures rc == 0 ==> busy && requestId == request && leaf == leafId
      ensures rc != 0 ==> rc == -1 && !busy
    {
      cfg.IdsSuffice();
      rc, indexes := GetBranchIndexes(cfg.levels, 8 * cfg.IdBytes(), leafId);
      requestId, leaf, busy := request, leafId, rc == 0;
    }

    /** Lines 136-141 */
    method SendNumBlocks()
      requires Sound() && busy
      modifies this`trace
      ensures trace == old(trace) + [SentCount(Start(cfg.blocks, cfg.levels))]
    {
      StartIsProduct(cfg.blocks, cfg.levels);
      Record(SentCount(|indexes| * cfg.blocks));
    }

    method GetBranchFromFdb() returns (branch: array<Wire>)
      requires Sound() && busy
      modifies this`trace
      ensures fresh(branch) && branch[..] == Fetch(cfg.levels, cfg.blocks, store[..], leaf)
      ensures trace == old(trace) + BucketEvents(Path(cfg.levels, leaf), false)
    {
      branch := AllocateBranch();
      var current := 0;
      ghost var path := Path(cfg.levels, leaf);
      while current < cfg.levels
        invariant 0 <= current <= cfg.levels
        invariant Start(cfg.blocks, current) <= branch.Length == Start(cfg.blocks, cfg.levels)
        invariant branch[..Start(cfg.blocks, current)] == FetchUpTo(cfg.levels, cfg.blocks, store[..], leaf, current)
        invariant trace == old(trace) + BucketEvents(path[..current], false)
      {
        ReadBucketInto(branch, current);
        BucketEventsStep(path, current, false);
        current := current + 1;
      }
      assert path[..current] == path;
    }

    /** Lines 424-467, one round */
    method ReadBucketInto(branch: array<Wire>, current: nat)
      requires Sound() && busy && current < cfg.levels && branch.Length == Start(cfg.blocks, cfg.levels)
      requires Start(cfg.blocks, current) <= branch.Length
      requires branch[..Start(cfg.blocks, current)] == FetchUpTo(cfg.levels, cfg.blocks, store[..], leaf, current)
      modifies this`trace, branch
      ensures Start(cfg.blocks, current + 1) <= branch.Length
      ensures branch[..Start(cfg.blocks, current + 1)] ==
              FetchUpTo(cfg.levels, cfg.blocks, store[..], leaf, current + 1)
      ensures trace == old(trace) + [ReadBucket(Path(cfg.levels, leaf)[current])]
    {
      NodeInTree(cfg.levels, leaf, current);
      StartMonotone(cfg.blocks, current + 1, cfg.levels);
      var bucket := GetBucket(indexes[current]);
      FillBucket(branch, current, bucket);
    }

    /** Lines 137-148 */
    method AllocateBranch() returns (branch: array<Wire>)
      ensures fresh(branch) && branch.Length == Start(cfg.blocks, cfg.levels)
    {
      StartIsProduct(cfg.blocks, cfg.levels);
      branch := new Wire[cfg.levels * cfg.blocks];
    }

    /** Lines 452-454: bucket number `current` of the branch is filled in. */
    method FillBucket(branch: array<Wire>, current: nat, bucket: seq<Wire>)
      requires |bucket| == cfg.blocks && Start(cfg.blocks, current + 1) <= branch.Length
      modifies branch
      ensures branch[..Start(cfg.blocks, current + 1)] == old(branch[..Start(cfg.blocks, current)]) + bucket
    {
      StartIsProduct(cfg.blocks, current);
      var base := current * cfg.blocks;
      var o := 0;
      while o < |bucket|
        invariant 0 <= o <= |bucket|
        invariant branch[..base + o] == old(branch[..base]) + bucket[..o]
      {
        branch[base + o] := bucket[o];
        o := o + 1;
      }
    }

    /** Lines 471-489 */
    method SendBranchToClient(branch: seq<Wire>) returns (sent: seq<Wire>)
      requires forall i :: 0 <= i < |branch| ==> |branch[i]| == cfg.blockSize
      modifies this`trace
      ensures sent == branch && trace == old(trace) + BlockEvents(cfg.blockSize, |branch|, false)
    {
      sent := [];
      var i := 0;
      while i < |branch|
        invariant 0 <= i <= |branch| && sent == branch[..i]
        invariant trace == old(trace) + BlockEvents(cfg.blockSize, i, false)
      {
        sent := SendBlock(sent, branch[i]);
        BlockEventsStep(cfg.blockSize, i, false);
        i := i + 1;
      }
    }

    lemma FetchedWellSized(leafId: nat)
      requires Sound() && ValidLeaf(cfg.levels, leafId)
      ensures forall i :: 0 <= i < Start(cfg.blocks, cfg.levels) ==>
                |Fetch(cfg.levels, cfg.blocks, store[..], leafId)[i]| == cfg.blockSize
    {
      forall i | 0 <= i < Start(cfg.blocks, cfg.levels)
        ensures |Fetch(cfg.levels, cfg.blocks, store[..], leafId)[i]| == cfg.blockSize
      {
        var k, o := BranchSlot(cfg.levels, cfg.blocks, store[..], leafId, i);
      }
    }

    /** Lines 164-183: receive the rewritten blocks, store them, acknowledge. The session has one more
        access, in which the client answers the branch it was sent by these blocks. */
    method FinishAccess(blocks: seq<Wire>) returns (ack: nat)
      requires Valid() && busy && |blocks| == Start(cfg.blocks, cfg.levels)
      requires forall i :: 0 <= i < |blocks| ==> |blocks[i]| == cfg.blockSize
      modifies this`trace, this`busy, this`session, store
      ensures Valid() && !busy && ack == old(requestId)
      ensures store[..] == WriteBack(cfg.levels, cfg.blocks, old(store[..]), old(leaf), blocks)
      ensures trace == old(trace) + StoreTrace(cfg, ack, old(leaf))
      ensures session == old(session).(script := old(session).script +
                [Answering(ack, old(leaf), Fetch(cfg.levels, cfg.blocks, old(store[..]), old(leaf)), blocks)])
    {
      hide *;
      ghost var before := store[..];
      BusyFacts();
      var received, rest := ReceiveBlocks(blocks, |blocks|);
      assert received == blocks;
      SendBranchToFdb(received);
      Record(Acknowledged(requestId));
      StoreTraceJoins(old(trace), requestId, leaf);
      ack := requestId;
      CloseAccess(before, blocks);
    }

    lemma BusyFacts()
      requires Valid() && busy
      ensures Sound() && requestId >= 1 && ValidLeaf(cfg.levels, leaf)
      ensures cfg.Legal() && Shaped(cfg.levels, cfg.blocks, store[..]) && Logged(cfg, session, store[..])
    {
    }

    /** The order of the events of `FinishAccess` */
    lemma StoreTraceJoins(before: seq<Event>, request: nat, leafId: nat)
      requires ValidLeaf(cfg.levels, leafId)
      ensures before + BlockEvents(cfg.blockSize, Start(cfg.blocks, cfg.levels), true) +
              BucketEvents(Path(cfg.levels, leafId), true) + [Acknowledged(request)] ==
              before + StoreTrace(cfg, request, leafId)
    {
      hide BucketEvents, BlockEvents, Path, Start;
    }

    method CloseAccess(ghost before: Buckets<Wire>, ghost blocks: seq<Wire>)
      requires Sound() && busy && |blocks| == Start(cfg.blocks, cfg.levels)
      requires requestId >= 1 && ValidLeaf(cfg.levels, leaf)
      requires Shaped(cfg.levels, cfg.blocks, before) && Logged(cfg, session, before)
      requires store[..] == WriteBack(cfg.levels, cfg.blocks, before, leaf, blocks)
      modifies this`busy, this`session
      ensures Valid() && !busy
      ensures session == old(session).(script := old(session).script +
                [Answering(requestId, leaf, Fetch(cfg.levels, cfg.blocks, before, leaf), blocks)])
    {
      hide Logged, Fetch, WriteBack, Shaped;
      LogAccess(cfg, session, before, requestId, leaf, blocks);
      session := session.(script := session.script +
        [Answering(requestId, leaf, Fetch(cfg.levels, cfg.blocks, before, leaf), blocks)]);
      busy := false;
    }

    method SendBranchToFdb(blocks: seq<Wire>)
      requires Sound() && busy && |blocks| == Start(cfg.blocks, cfg.levels)
      requires forall i :: 0 <= i < |blocks| ==> |blocks[i]| == cfg.blockSize
      modifies this`trace, store
      ensures Sound()
      ensures store[..] == WriteBack(cfg.levels, cfg.blocks, old(store[..]), leaf, blocks)
      ensures trace == old(trace) + BucketEvents(Path(cfg.levels, leaf), true)
    {
      var current := 0;
      ghost var path := Path(cfg.levels, leaf);
      while current < cfg.levels
        invariant 0 <= current <= cfg.levels
        invariant Sound()
        invariant store[..] == WriteUpTo(cfg.levels, cfg.blocks, old(store[..]), leaf, blocks, current)
        invariant trace == old(trace) + BucketEvents(path[..current], true)
      {
        WriteBucketFrom(blocks, current, old(store[..]));
        BucketEventsStep(path, current, true);
        current := current + 1;
      }
      assert path[..current] == path;
    }

    /** Lines 515-528, one round */
    method WriteBucketFrom(blocks: seq<Wire>, current: nat, ghost before: Buckets<Wire>)
      requires Sound() && busy && current < cfg.levels && |blocks| == Start(cfg.blocks, cfg.levels)
      requires forall i :: 0 <= i < |blocks| ==> |blocks[i]| == cfg.blockSize
      requires Shaped(cfg.levels, cfg.blocks, before)
      requires store[..] == WriteUpTo(cfg.levels, cfg.blocks, before, leaf, blocks, current)
      modifies this`trace, store
      ensures Sound()
      ensures store[..] == WriteUpTo(cfg.levels, cfg.blocks, before, leaf, blocks, current + 1)
      ensures trace == old(trace) + [WroteBucket(Path(cfg.levels, leaf)[current])]
    {
      hide *;
      WriteFacts(blocks, current, before);
      var bucket := TakeBucket(blocks, current);
      SetBucket(indexes[current], bucket);
      StillSound(old(store[..]), indexes[current], bucket);
    }

    lemma WriteFacts(blocks: seq<Wire>, current: nat, before: Buckets<Wire>)
      requires Sound() && busy && current < cfg.levels && |blocks| == Start(cfg.blocks, cfg.levels)
      requires Shaped(cfg.levels, cfg.blocks, before)
      requires store[..] == WriteUpTo(cfg.levels, cfg.blocks, before, leaf, blocks, current)
      ensures ValidLeaf(cfg.levels, leaf) && indexes == Path(cfg.levels, leaf)
      ensures 1 <= indexes[current] < store.Length && cfg.blocks < Space(1)
      ensures Start(cfg.blocks, current) <= Start(cfg.blocks, current + 1) <= |blocks|
      ensures WriteUpTo(cfg.levels, cfg.blocks, before, leaf, blocks, current + 1) ==
              store[..][indexes[current] := blocks[Start(cfg.blocks, current)..Start(cfg.blocks, current + 1)]]
      ensures |blocks[Start(cfg.blocks, current)..Start(cfg.blocks, current + 1)]| == cfg.blocks
      ensures cfg.Legal() && Shaped(cfg.levels, cfg.blocks, store[..]) && WellSized(store[..]) && requestId >= 1
    {
      hide Pow2, WellSized;
      NodeInTree(cfg.levels, leaf, current);
      StartMonotone(cfg.blocks, current + 1, cfg.levels);
    }

    /** A bucket of the right size is replaced by another. */
    lemma StillSound(before: Buckets<Wire>, n: nat, bucket: seq<Wire>)
      requires cfg.Legal() && busy && requestId >= 1 && ValidLeaf(cfg.levels, leaf) && indexes == Path(cfg.levels, leaf)
      requires Shaped(cfg.levels, cfg.blocks, before) && WellSized(before)
      requires n < |before| && |bucket| == cfg.blocks && store[..] == before[n := bucket]
      requires forall o :: 0 <= o < |bucket| ==> |bucket[o]| == cfg.blockSize
      ensures Sound()
    {
      hide Config.Legal, ValidLeaf, Path;
    }

    /** Lines 517-520: bucket number `current` of the branch is put together. The counter has 8 bits. */
    method TakeBucket(blocks: seq<Wire>, current: nat) returns (bucket: seq<Wire>)
      requires Start(cfg.blocks, current + 1) <= |blocks| && cfg.blocks < Space(1)
      ensures bucket == blocks[Start(cfg.blocks, current)..Start(cfg.blocks, current + 1)]
    {
      StartIsProduct(cfg.blocks, current);
      var base := current * cfg.blocks;
      bucket := [];
      var o := 0;
      while o < cfg.blocks
        invariant 0 <= o <= cfg.blocks
        invariant bucket == blocks[base..base + o]
      {
        bucket := bucket + [blocks[base + o]];
        WrapFits(o + 1, Space(1));
        o := Wrap(o + 1, Space(1));
      }
    }
  }
}
