/** Client and server as two machines that only share two message queues: the first connection and
    every access after it (src/single_client.cpp:104-149, 205-248, 409-438, 601-623;
    src/server.cpp:84-183, 295, 315-331, 398), under every interleaving of their steps. */
module Lockstep {
  import opened Arithmetic
  import opened Paths
  import opened Slots
  import opened Tree

  datatype Message<T> = Flag(up: bool) | Id(n: nat) | Count(n: nat) | Block(b: T)

  /** What the client decides in one access: two random numbers and how it rewrites the branch. */
  datatype Access<!T> = Access(requestId: nat, leaf: nat, rewrite: seq<T> -> seq<T>)

  datatype Session<!T(!new)> = Session(L: nat, B: nat, initial: seq<T>, script: seq<Access<T>>, ends: bool) {

    ghost predicate Valid() {
      && L >= 1 && B >= 1 && |initial| == Start(B, Pow2(L) - 1)
      && (forall k :: 0 <= k < |script| ==>
            script[k].requestId >= 1 && ValidLeaf(L, script[k].leaf) &&
            forall br :: |script[k].rewrite(br)| == |br|)
    }

    /** The last phase of the conversation: the last access, or a shutdown after it. */
    ghost function Last(): nat {
      |script| + if ends then 1 else 0
    }

    /** The number of blocks of a branch. */
    ghost function N(): nat {
      Start(B, L)
    }
  }

  // ----- The two programs -----

  datatype ClientState<T> =
    | AwaitFlag
    | SendInitial(sent: nat)
    | AwaitReady
    | StartAccess(k: nat)
    | SendLeaf(k: nat)
    | AwaitCount(k: nat)
    | Receiving(k: nat, n: nat, got: seq<T>)
    | Sending(k: nat, rest: seq<T>)
    | AwaitAck(k: nat)
    | Closed
    | ClientError

  datatype ServerState<T> =
    | SendFlag
    | ReceiveInitial(got: seq<T>)
    | SendReady(got: seq<T>)
    | AwaitRequest
    | AwaitLeaf(id: nat)
    | SendCount(id: nat, leaf: nat)
    | SendBlocks(id: nat, leaf: nat, rest: seq<T>)
    | ReceiveBlocks(id: nat, leaf: nat, got: seq<T>)
    | SendAck(id: nat, leaf: nat, got: seq<T>)
    | Stopped
    | ServerError

  datatype System<T> = System(client: ClientState<T>, server: ServerState<T>,
                              toServer: seq<Message<T>>, toClient: seq<Message<T>>, tree: Buckets<T>)

  /** What a machine is about to do: send a message, take one, or nothing. */
  datatype Move<S, T> = Send(next: S, message: Message<T>) | Receive | Halt

  ghost function ClientMove<T(!new)>(s: Session<T>, c: ClientState<T>): Move<ClientState<T>, T> {
    match c
    case SendInitial(sent) =>
      if sent < |s.initial|
      then Send(if sent + 1 == |s.initial| then AwaitReady else SendInitial(sent + 1), Block(s.initial[sent]))
      else Halt
    case StartAccess(k) =>
      if k < |s.script| then Send(SendLeaf(k), Id(s.script[k].requestId))
      else if k == |s.script| && s.ends then Send(Closed, Id(0))
      else Halt
    case SendLeaf(k) =>
      if k < |s.script| then Send(AwaitCount(k), Id(s.script[k].leaf)) else Halt
    case Sending(k, rest) =>
      if rest == [] then Halt
      else Send(if |rest| == 1 then AwaitAck(k) else Sending(k, rest[1..]), Block(rest[0]))
    case Closed => Halt
    case ClientError => Halt
    case _ => Receive
  }

  /** The client's state after it has taken message `m`. */
  ghost function ClientTakes<T(!new)>(s: Session<T>, c: ClientState<T>, m: Message<T>): ClientState<T> {
    match (c, m)
    case (AwaitFlag, Flag(up)) => if up then StartAccess(0) else SendInitial(0)
    case (AwaitReady, Flag(up)) => if up then StartAccess(0) else ClientError
    case (AwaitCount(k), Count(n)) => Receiving(k, n, [])
    case (Receiving(k, n, got), Block(b)) =>
      if |got| + 1 < n then Receiving(k, n, got + [b])
      else if k < |s.script| then Sending(k, s.script[k].rewrite(got + [b]))
      else ClientError
    case (AwaitAck(k), Id(n)) =>
      if k < |s.script| && n == s.script[k].requestId then StartAccess(k + 1) else ClientError
    case _ => ClientError
  }

  /** The server knows the tree's dimensions. */
  ghost function ServerMove<T(!new)>(L: nat, B: nat, t: Buckets<T>, v: ServerState<T>): Move<ServerState<T>, T> {
    match v
    case SendFlag => Send(ReceiveInitial([]), Flag(false))
    case SendReady(got) => Send(AwaitRequest, Flag(true))
    case SendCount(id, leaf) =>
      if Shaped(L, B, t) && ValidLeaf(L, leaf)
      then Send(SendBlocks(id, leaf, Fetch(L, B, t, leaf)), Count(Start(B, L)))
      else Halt
    case SendBlocks(id, leaf, rest) =>
      if rest == [] then Halt
      else Send(if |rest| == 1 then ReceiveBlocks(id, leaf, []) else SendBlocks(id, leaf, rest[1..]), Block(rest[0]))
    case SendAck(id, leaf, got) => Send(AwaitRequest, Id(id))
    case Stopped => Halt
    case ServerError => Halt
    case _ => Receive
  }

  /** A request id of 0 stops the server; an invalid leaf is refused. */
  ghost function ServerTakes<T(!new)>(L: nat, B: nat, v: ServerState<T>, m: Message<T>): ServerState<T> {
    match (v, m)
    case (ReceiveInitial(got), Block(b)) =>
      if |got| + 1 < Start(B, Pow2(L) - 1) then ReceiveInitial(got + [b]) else SendReady(got + [b])
    case (AwaitRequest, Id(n)) => if n == 0 then Stopped else AwaitLeaf(n)
    case (AwaitLeaf(id), Id(n)) => if ValidLeaf(L, n) then SendCount(id, n) else ServerError
    case (ReceiveBlocks(id, leaf, got), Block(b)) =>
      if |got| + 1 < Start(B, L) then ReceiveBlocks(id, leaf, got + [b]) else SendAck(id, leaf, got + [b])
    case _ => ServerError
  }

  /** The blocks of bucket `n` when the tree is filled in order. */
  ghost function Share<T(!new)>(B: nat, blocks: seq<T>, n: nat): seq<T> {
    if n == 0 || Start(B, n) > |blocks| then [] else blocks[Start(B, n - 1)..Start(B, n)]
  }

  /** The tree filled with the initial blocks, bucket by bucket. */
  ghost function Filled<T(!new)>(L: nat, B: nat, blocks: seq<T>): (t: Buckets<T>)
    requires L >= 1 && |blocks| == Start(B, Pow2(L) - 1)
    ensures Shaped(L, B, t)
  {
    SharesFit(L, B, blocks);
    seq(Pow2(L), n requires 0 <= n => Share(B, blocks, n))
  }

  lemma SharesFit<T(!new)>(L: nat, B: nat, blocks: seq<T>)
    requires L >= 1 && |blocks| == Start(B, Pow2(L) - 1)
    ensures forall n: nat :: 1 <= n < Pow2(L) ==> |Share(B, blocks, n)| == B
  {
    forall n: nat | 1 <= n < Pow2(L)
      ensures |Share(B, blocks, n)| == B
    {
      StartMonotone(B, n, Pow2(L) - 1);
    }
  }

  /** The tree changes just before the ready flag and before an acknowledgement. */
  ghost function TreeMove<T(!new)>(L: nat, B: nat, t: Buckets<T>, v: ServerState<T>): Buckets<T> {
    match v
    case SendReady(got) => if L >= 1 && |got| == Start(B, Pow2(L) - 1) then Filled(L, B, got) else t
    case SendAck(_, leaf, got) =>
      if Shaped(L, B, t) && ValidLeaf(L, leaf) && |got| == Start(B, L) then WriteBack(L, B, t, leaf, got) else t
    case _ => t
  }

  // ----- Interleavings -----

  ghost predicate ClientSteps<T(!new)>(s: Session<T>, a: System<T>, b: System<T>) {
    match ClientMove(s, a.client)
    case Send(next, message) => b == a.(client := next, toServer := a.toServer + [message])
    case Receive =>
      a.toClient != [] && b == a.(client := ClientTakes(s, a.client, a.toClient[0]), toClient := a.toClient[1..])
    case Halt => false
  }

  ghost predicate ServerSteps<T(!new)>(s: Session<T>, a: System<T>, b: System<T>) {
    match ServerMove(s.L, s.B, a.tree, a.server)
    case Send(next, message) =>
      b == a.(server := next, toClient := a.toClient + [message], tree := TreeMove(s.L, s.B, a.tree, a.server))
    case Receive =>
      a.toServer != [] && b == a.(server := ServerTakes(s.L, s.B, a.server, a.toServer[0]), toServer := a.toServer[1..])
    case Halt => false
  }

  ghost predicate Steps<T(!new)>(s: Session<T>, a: System<T>, b: System<T>) {
    ClientSteps(s, a, b) || ServerSteps(s, a, b)
  }

  /** The first connection to a server without a tree. */
  ghost function Initial<T(!new)>(): System<T> {
    System(AwaitFlag, SendFlag, [], [], [])
  }

  ghost predicate IsRun<T(!new)>(s: Session<T>, run: seq<System<T>>) {
    && |run| > 0 && run[0] == Initial()
    && forall i :: 0 <= i < |run| - 1 ==> Steps(s, run[i], run[i + 1])
  }

  // ----- The conversation that both programs follow -----

  /** The tree after the first `k` accesses, one after the other. */
  ghost function TreeAfter<T(!new)>(s: Session<T>, k: nat): (t: Buckets<T>)
    requires s.Valid() && k <= |s.script|
    ensures Shaped(s.L, s.B, t)
    decreases k, 0
  {
    if k == 0 then Filled(s.L, s.B, s.initial)
    else WriteBack(s.L, s.B, TreeAfter(s, k - 1), s.script[k - 1].leaf, Sent(s, k - 1))
  }

  /** The branch that access `k` fetches, and the one it sends back. */
  ghost function Fetched<T(!new)>(s: Session<T>, k: nat): (br: seq<T>)
    requires s.Valid() && k < |s.script|
    ensures |br| == s.N()
    decreases k, 1
  {
    Fetch(s.L, s.B, TreeAfter(s, k), s.script[k].leaf)
  }

  ghost function Sent<T(!new)>(s: Session<T>, k: nat): (br: seq<T>)
    requires s.Valid() && k < |s.script|
    ensures |br| == s.N()
    decreases k, 2
  {
    s.script[k].rewrite(Fetched(s, k))
  }

  /** Phase 0 is the first connection, phase k + 1 is access `k`, and a phase after the last access is the
      shutdown; the number of its messages. */
  ghost function Length<T(!new)>(s: Session<T>, phase: nat): nat {
    if phase == 0 then |s.initial| + 2 else if phase <= |s.script| then 2 * s.N() + 4 else 1
  }

  datatype Entry<T> = Entry(byClient: bool, message: Message<T>)

  /** Message number `p` of a phase and who sends it. */
  ghost function Said<T(!new)>(s: Session<T>, phase: nat, p: nat): Entry<T>
    requires s.Valid() && phase <= s.Last() && p < Length(s, phase)
  {
    if phase == 0 then
      if p == 0 then Entry(false, Flag(false))
      else if p <= |s.initial| then Entry(true, Block(s.initial[p - 1]))
      else Entry(false, Flag(true))
    else if phase > |s.script| then Entry(true, Id(0))
    else
      var k, n := phase - 1, s.N();
      if p == 0 then Entry(true, Id(s.script[k].requestId))
      else if p == 1 then Entry(true, Id(s.script[k].leaf))
      else if p == 2 then Entry(false, Count(n))
      else if p < n + 3 then Entry(false, Block(Fetched(s, k)[p - 3]))
      else if p < 2 * n + 3 then Entry(true, Block(Sent(s, k)[p - n - 3]))
      else Entry(false, Id(s.script[k].requestId))
  }

  /** The client's state when it has dealt with the first `p` messages of a phase. */
  ghost function ClientAt<T(!new)>(s: Session<T>, phase: nat, p: nat): ClientState<T>
    requires s.Valid() && phase <= s.Last() && p <= Length(s, phase)
  {
    if phase > |s.script| then (if p == 0 then StartAccess(|s.script|) else Closed)
    else if p == Length(s, phase) then StartAccess(phase)
    else if phase == 0 then
      if p == 0 then AwaitFlag else if p <= |s.initial| then SendInitial(p - 1) else AwaitReady
    else
      var k, n := phase - 1, s.N();
      if p == 0 then StartAccess(k)
      else if p == 1 then SendLeaf(k)
      else if p == 2 then AwaitCount(k)
      else if p < n + 3 then Receiving(k, n, Fetched(s, k)[..p - 3])
      else if p < 2 * n + 3 then Sending(k, Sent(s, k)[p - n - 3..])
      else AwaitAck(k)
  }

  ghost function ServerAt<T(!new)>(s: Session<T>, phase: nat, p: nat): ServerState<T>
    requires s.Valid() && phase <= s.Last() && p <= Length(s, phase)
  {
    if phase > |s.script| then (if p == 0 then AwaitRequest else Stopped)
    else if p == Length(s, phase) then AwaitRequest
    else if phase == 0 then
      if p == 0 then SendFlag else if p <= |s.initial| then ReceiveInitial(s.initial[..p - 1]) else SendReady(s.initial)
    else
      var k, n := phase - 1, s.N();
      var id, leaf := s.script[k].requestId, s.script[k].leaf;
      if p == 0 then AwaitRequest
      else if p == 1 then AwaitLeaf(id)
      else if p == 2 then SendCount(id, leaf)
      else if p < n + 3 then SendBlocks(id, leaf, Fetched(s, k)[p - 3..])
      else if p < 2 * n + 3 then ReceiveBlocks(id, leaf, Sent(s, k)[..p - n - 3])
      else SendAck(id, leaf, Sent(s, k))
  }

  ghost function TreeAt<T(!new)>(s: Session<T>, phase: nat, p: nat): Buckets<T>
    requires s.Valid() && phase <= s.Last() && p <= Length(s, phase)
  {
    if phase > |s.script| then TreeAfter(s, |s.script|)
    else if p == Length(s, phase) then TreeAfter(s, phase)
    else if phase == 0 then []
    else TreeAfter(s, phase - 1)
  }

  lemma BranchNotEmpty<T(!new)>(s: Session<T>)
    requires s.Valid()
    ensures s.N() >= 1 && |s.initial| >= 1
  {
    StartMonotone(s.B, 0, s.L);
    Pow2Monotone(1, s.L);
    StartMonotone(s.B, 0, Pow2(s.L) - 1);
  }

  /** Where the conversation has the client speak, it sends that message and goes on; elsewhere it
      waits for exactly that message. */
  ghost predicate ClientFits<T(!new)>(s: Session<T>, phase: nat, p: nat)
    requires s.Valid() && phase <= s.Last() && p < Length(s, phase)
  {
    var said, move := Said(s, phase, p), ClientMove(s, ClientAt(s, phase, p));
    if said.byClient then move == Send(ClientAt(s, phase, p + 1), said.message)
    else move.Receive? && ClientTakes(s, ClientAt(s, phase, p), said.message) == ClientAt(s, phase, p + 1)
  }

  /** The same for the server, and its tree. */
  ghost predicate ServerFits<T(!new)>(s: Session<T>, phase: nat, p: nat)
    requires s.Valid() && phase <= s.Last() && p < Length(s, phase)
  {
    var said, move := Said(s, phase, p), ServerMove(s.L, s.B, TreeAt(s, phase, p), ServerAt(s, phase, p));
    if said.byClient then
      move.Receive? && ServerTakes(s.L, s.B, ServerAt(s, phase, p), said.message) == ServerAt(s, phase, p + 1) &&
      TreeAt(s, phase, p + 1) == TreeAt(s, phase, p)
    else
      move == Send(ServerAt(s, phase, p + 1), said.message) &&
      TreeAt(s, phase, p + 1) == TreeMove(s.L, s.B, TreeAt(s, phase, p), ServerAt(s, phase, p))
  }

  /** The cases are the first connection, the shutdown, the ids, the blocks to the client and the blocks to
      the server. */
  lemma ClientFollows<T(!new)>(s: Session<T>, phase: nat, p: nat)
    requires s.Valid() && phase <= s.Last() && p < Length(s, phase)
    ensures ClientFits(s, phase, p)
  {
    hide Said, ClientFits, ServerFits, Session.Valid;
    if phase == 0 {
      ClientFollowsFirst(s, p);
    } else if phase > |s.script| {
      ClientFollowsEnd(s);
    } else if p < 3 || p == 2 * s.N() + 3 {
      ClientFollowsIds(s, phase, p);
    } else if p < s.N() + 3 {
      ClientFollowsDown(s, phase, p);
    } else {
      ClientFollowsUp(s, phase, p);
    }
  }

  lemma ClientFollowsEnd<T(!new)>(s: Session<T>)
    requires s.Valid() && s.ends
    ensures ClientFits(s, |s.script| + 1, 0)
  {
    hide TreeAfter, Fetched, Sent;
  }

  lemma ClientFollowsFirst<T(!new)>(s: Session<T>, p: nat)
    requires s.Valid() && p < Length(s, 0)
    ensures ClientFits(s, 0, p)
  {
    hide Start, Pow2, Shaped, Fetch, WriteBack, Filled, ValidLeaf, ServerMove, ServerTakes, TreeMove, ServerAt, TreeAt;
    BranchNotEmpty(s);
    if 1 <= p <= |s.initial| {
      NextBlock(s.initial, p - 1);
    }
  }

  lemma ClientFollowsIds<T(!new)>(s: Session<T>, phase: nat, p: nat)
    requires s.Valid() && 0 < phase <= |s.script| && p < Length(s, phase)
    requires p < 3 || p == 2 * s.N() + 3
    ensures ClientFits(s, phase, p)
  {
    hide Start, Pow2, Shaped, Fetch, WriteBack, Filled, ValidLeaf, TreeAfter, Fetched, Sent, ServerMove, ServerTakes,
         TreeMove, ServerAt, TreeAt;
    BranchNotEmpty(s);
    var k := phase - 1;
    assert Fetched(s, k)[..0] == [] && Fetched(s, k)[0..] == Fetched(s, k);
  }

  lemma ClientFollowsDown<T(!new)>(s: Session<T>, phase: nat, p: nat)
    requires s.Valid() && 0 < phase <= |s.script| && 3 <= p < s.N() + 3
    ensures ClientFits(s, phase, p)
  {
    hide Start, Pow2, Shaped, Fetch, WriteBack, Filled, ValidLeaf, TreeAfter, Fetched, Sent, ServerMove, ServerTakes,
         TreeMove, ServerAt, TreeAt, Session.Valid;
    BranchNotEmpty(s);
    var k := phase - 1;
    NextBlock(Fetched(s, k), p - 3);
    SentIs(s, k);
    assert Sent(s, k)[0..] == Sent(s, k) && Sent(s, k)[..0] == [];
  }

  lemma SentIs<T(!new)>(s: Session<T>, k: nat)
    requires s.Valid() && k < |s.script|
    ensures Sent(s, k) == s.script[k].rewrite(Fetched(s, k))
  {
  }

  lemma ClientFollowsUp<T(!new)>(s: Session<T>, phase: nat, p: nat)
    requires s.Valid() && 0 < phase <= |s.script| && s.N() + 3 <= p < 2 * s.N() + 3
    ensures ClientFits(s, phase, p)
  {
    hide Start, Pow2, Shaped, Fetch, WriteBack, Filled, ValidLeaf, TreeAfter, Fetched, ServerMove, ServerTakes,
         TreeMove, ServerAt, TreeAt;
    BranchNotEmpty(s);
    NextBlock(Sent(s, phase - 1), p - s.N() - 3);
  }

  lemma ServerFollows<T(!new)>(s: Session<T>, phase: nat, p: nat)
    requires s.Valid() && phase <= s.Last() && p < Length(s, phase)
    ensures ServerFits(s, phase, p)
  {
    hide Said, ClientFits, ServerFits, Session.Valid;
    if phase == 0 {
      ServerFollowsFirst(s, p);
    } else if phase > |s.script| {
      ServerFollowsEnd(s);
    } else if p < 3 {
      ServerFollowsIds(s, phase, p);
    } else if p == 2 * s.N() + 3 {
      ServerFollowsLast(s, phase);
    } else if p < s.N() + 3 {
      ServerFollowsDown(s, phase, p);
    } else {
      ServerFollowsUp(s, phase, p);
    }
  }

  lemma ServerFollowsEnd<T(!new)>(s: Session<T>)
    requires s.Valid() && s.ends
    ensures ServerFits(s, |s.script| + 1, 0)
  {
    hide TreeAfter, Fetched, Sent;
  }

  lemma ServerFollowsFirst<T(!new)>(s: Session<T>, p: nat)
    requires s.Valid() && p < Length(s, 0)
    ensures ServerFits(s, 0, p)
  {
    hide Start, Pow2, Shaped, Fetch, WriteBack, Filled, ValidLeaf, ClientMove, ClientTakes, ClientAt;
    BranchNotEmpty(s);
    if 1 <= p <= |s.initial| {
      NextBlock(s.initial, p - 1);
    }
  }

  lemma ServerFollowsIds<T(!new)>(s: Session<T>, phase: nat, p: nat)
    requires s.Valid() && 0 < phase <= |s.script| && p < 3
    ensures p < Length(s, phase) && ServerFits(s, phase, p)
  {
    hide Start, Pow2, Shaped, Fetch, WriteBack, Filled, ValidLeaf, ClientMove, ClientTakes, ClientAt, TreeAfter, Sent;
    BranchNotEmpty(s);
    assert Fetched(s, phase - 1)[0..] == Fetched(s, phase - 1);
  }

  lemma ServerFollowsLast<T(!new)>(s: Session<T>, phase: nat)
    requires s.Valid() && 0 < phase <= |s.script|
    ensures ServerFits(s, phase, Length(s, phase) - 1)
  {
    hide Start, Pow2, Shaped, Fetch, WriteBack, Filled, ValidLeaf, ClientMove, ClientTakes, ClientAt, ServerTakes,
         Fetched, Sent;
    BranchNotEmpty(s);
  }

  lemma ServerFollowsDown<T(!new)>(s: Session<T>, phase: nat, p: nat)
    requires s.Valid() && 0 < phase <= |s.script| && 3 <= p < s.N() + 3
    ensures ServerFits(s, phase, p)
  {
    hide Start, Pow2, Shaped, Fetch, WriteBack, Filled, ValidLeaf, TreeAfter, Fetched, ClientMove, ClientTakes,
         ClientAt;
    BranchNotEmpty(s);
    var k := phase - 1;
    NextBlock(Fetched(s, k), p - 3);
    assert Sent(s, k)[0..] == Sent(s, k) && Sent(s, k)[..0] == [];
  }

  lemma ServerFollowsUp<T(!new)>(s: Session<T>, phase: nat, p: nat)
    requires s.Valid() && 0 < phase <= |s.script| && s.N() + 3 <= p < 2 * s.N() + 3
    ensures ServerFits(s, phase, p)
  {
    hide Start, Pow2, Shaped, Fetch, WriteBack, Filled, ValidLeaf, TreeAfter, Fetched, ClientMove, ClientTakes,
         ClientAt;
    BranchNotEmpty(s);
    NextBlock(Sent(s, phase - 1), p - s.N() - 3);
  }

  lemma NextBlock<T(!new)>(br: seq<T>, i: nat)
    requires i < |br|
    ensures br[..i] + [br[i]] == br[..i + 1] && br[..|br|] == br
    ensures br[i..][0] == br[i] && br[i..][1..] == br[i + 1..]
  {
  }

  // ----- Every interleaving follows the conversation -----

  /** A machine is at most ahead of the other by messages that it has sent itself and that are still
      in the queue. */
  datatype Place = Place(phase: nat, client: nat, server: nat)

  /** Messages `i` to `j` of a phase. */
  ghost function Messages<T(!new)>(s: Session<T>, phase: nat, i: nat, j: nat): (m: seq<Message<T>>)
    requires s.Valid() && phase <= s.Last() && i <= j <= Length(s, phase)
    ensures |m| == j - i
  {
    seq(j - i, x requires 0 <= x < j - i => Said(s, phase, i + x).message)
  }

  ghost predicate AllBy<T(!new)>(s: Session<T>, client: bool, phase: nat, i: nat, j: nat)
    requires s.Valid() && phase <= s.Last() && j <= Length(s, phase)
  {
    forall p :: i <= p < j ==> Said(s, phase, p).byClient == client
  }

  ghost predicate At<T(!new)>(s: Session<T>, a: System<T>, x: Place) {
    && s.Valid() && x.phase <= s.Last() && x.client <= Length(s, x.phase) && x.server <= Length(s, x.phase)
    && a.client == ClientAt(s, x.phase, x.client)
    && a.server == ServerAt(s, x.phase, x.server)
    && a.tree == TreeAt(s, x.phase, x.server)
    && (if x.server <= x.client
        then AllBy(s, true, x.phase, x.server, x.client) && a.toClient == [] &&
             a.toServer == Messages(s, x.phase, x.server, x.client)
        else AllBy(s, false, x.phase, x.client, x.server) && a.toServer == [] &&
             a.toClient == Messages(s, x.phase, x.client, x.server))
  }

  /** The end of a phase is the beginning of the next one. */
  ghost predicate Reached<T(!new)>(s: Session<T>, a: System<T>, x: Place) {
    At(s, a, x) && (x.client < Length(s, x.phase) || x.phase == s.Last())
  }

  /** The steps that both machines together have taken when they are at `x`. */
  ghost function StepsTo<T(!new)>(s: Session<T>, x: Place): nat
    decreases x.phase
  {
    (if x.phase == 0 then 0 else StepsTo(s, Place(x.phase - 1, Length(s, x.phase - 1), Length(s, x.phase - 1)))) +
    x.client + x.server
  }

  lemma InitialReached<T(!new)>(s: Session<T>)
    requires s.Valid()
    ensures Reached(s, Initial(), Place(0, 0, 0)) && StepsTo(s, Place(0, 0, 0)) == 0
  {
  }

  /** The last message of a phase but the shutdown is the server's: when the client has taken it, both are
      through. */
  lemma ClientThrough<T(!new)>(s: Session<T>, a: System<T>, x: Place)
    requires At(s, a, x) && x.client == Length(s, x.phase) && x.phase <= |s.script|
    ensures x.server == x.client && a.toServer == [] && a.toClient == []
  {
    BranchNotEmpty(s);
    var last := Length(s, x.phase) - 1;
    assert !Said(s, x.phase, last).byClient;
  }

  /** From the end of a phase into the next. */
  lemma NextPhase<T(!new)>(s: Session<T>, a: System<T>, x: Place) returns (y: Place)
    requires At(s, a, x)
    ensures Reached(s, a, y) && StepsTo(s, y) == StepsTo(s, x)
  {
    hide Said, Fetched, Sent, TreeAfter, Session.Valid;
    y := x;
    if x.client == Length(s, x.phase) && x.phase < s.Last() {
      ClientThrough(s, a, x);
      y := Place(x.phase + 1, 0, 0);
      MessagesEnds(s, y.phase, 0, 0);
    }
  }

  lemma MessagesEnds<T(!new)>(s: Session<T>, phase: nat, i: nat, j: nat)
    requires s.Valid() && phase <= s.Last() && i <= j <= Length(s, phase)
    ensures j < Length(s, phase) ==>
            Messages(s, phase, i, j + 1) == Messages(s, phase, i, j) + [Said(s, phase, j).message]
    ensures i < j ==> Messages(s, phase, i, j)[0] == Said(s, phase, i).message
    ensures i < j ==> Messages(s, phase, i, j)[1..] == Messages(s, phase, i + 1, j)
    ensures Messages(s, phase, i, i) == []
  {
    hide Said;
  }

  lemma ClientStepReached<T(!new)>(s: Session<T>, a: System<T>, b: System<T>, x: Place)
    requires Reached(s, a, x) && x.client < Length(s, x.phase) && ClientSteps(s, a, b)
    ensures At(s, b, x.(client := x.client + 1))
  {
    hide Said, ClientAt, ServerAt, TreeAt, ClientMove, ClientTakes, Messages, Session.Valid, Length;
    var c := x.client;
    ClientFollows(s, x.phase, c);
    if x.server <= c {
      MessagesEnds(s, x.phase, x.server, c);
    } else {
      MessagesEnds(s, x.phase, c, x.server);
      MessagesEnds(s, x.phase, c + 1, x.server);
    }
  }

  lemma ServerStepReached<T(!new)>(s: Session<T>, a: System<T>, b: System<T>, x: Place)
    requires Reached(s, a, x) && x.server < Length(s, x.phase) && ServerSteps(s, a, b)
    ensures At(s, b, x.(server := x.server + 1))
  {
    hide Said, ClientAt, ServerAt, TreeAt, ServerMove, ServerTakes, TreeMove, Messages, Session.Valid, Length;
    var v := x.server;
    ServerFollows(s, x.phase, v);
    if x.client <= v {
      MessagesEnds(s, x.phase, x.client, v);
    } else {
      MessagesEnds(s, x.phase, v, x.client);
      MessagesEnds(s, x.phase, v + 1, x.client);
    }
    MessagesEnds(s, x.phase, v + 1, v + 1);
  }

  /** A machine that is through with the last phase has nothing left to do. */
  lemma ThroughHalts<T(!new)>(s: Session<T>, a: System<T>, b: System<T>, x: Place)
    requires Reached(s, a, x) && Steps(s, a, b)
    ensures ClientSteps(s, a, b) ==> x.client < Length(s, x.phase)
    ensures ServerSteps(s, a, b) ==> x.server < Length(s, x.phase)
  {
    hide Said, Fetched, Sent, TreeAfter;
    if x.client == Length(s, x.phase) && x.phase <= |s.script| {
      ClientThrough(s, a, x);
    }
  }

  /** Each step of either machine leads on by one place. */
  lemma StepReached<T(!new)>(s: Session<T>, a: System<T>, b: System<T>, x: Place) returns (y: Place)
    requires Reached(s, a, x) && Steps(s, a, b)
    ensures Reached(s, b, y) && StepsTo(s, y) == StepsTo(s, x) + 1
  {
    hide Said, ClientAt, ServerAt, TreeAt, Messages, Session.Valid, Length, ClientSteps, ServerSteps, At, AllBy;
    ReachedFacts(s, a, x);
    ThroughHalts(s, a, b, x);
    if ClientSteps(s, a, b) {
      y := x.(client := x.client + 1);
      ClientStepReached(s, a, b, x);
    } else {
      y := x.(server := x.server + 1);
      ServerStepReached(s, a, b, x);
    }
    y := NextPhase(s, b, y);
  }

  lemma ReachedFacts<T(!new)>(s: Session<T>, a: System<T>, x: Place)
    requires Reached(s, a, x)
    ensures s.Valid() && x.phase <= s.Last() && x.client <= Length(s, x.phase) && x.server <= Length(s, x.phase)
  {
  }

  /** Every state of every interleaving is a place in the conversation, as many steps from the start
      as have been taken. */
  lemma {:induction false} RunReached<T(!new)>(s: Session<T>, run: seq<System<T>>) returns (x: Place)
    requires s.Valid() && IsRun(s, run)
    ensures Reached(s, run[|run| - 1], x) && StepsTo(s, x) == |run| - 1
  {
    hide Said, ClientAt, ServerAt, TreeAt, Messages, Session.Valid, Length, ClientSteps, ServerSteps, At, AllBy;
    if |run| == 1 {
      x := Place(0, 0, 0);
      InitialReached(s);
    } else {
      var n := |run| - 1;
      var before := RunReached(s, run[..n]);
      assert Steps(s, run[n - 1], run[n - 1 + 1]);
      x := StepReached(s, run[n - 1], run[n], before);
    }
  }

  /** The end of the session: nothing is under way, the server has stopped if it was told to, and the tree
      is that of the accesses made one after the other. */
  ghost predicate Complete<T(!new)>(s: Session<T>, a: System<T>)
    requires s.Valid()
  {
    && a.client == (if s.ends then Closed else StartAccess(|s.script|))
    && a.server == (if s.ends then Stopped else AwaitRequest)
    && a.toServer == [] && a.toClient == [] && a.tree == TreeAfter(s, |s.script|)
  }

  ghost function LastPlace<T(!new)>(s: Session<T>): Place {
    Place(s.Last(), Length(s, s.Last()), Length(s, s.Last()))
  }

  lemma {:induction false} StepsBounded<T(!new)>(s: Session<T>, x: Place, phase: nat)
    requires x.client <= Length(s, x.phase) && x.server <= Length(s, x.phase) && x.phase <= phase
    ensures StepsTo(s, x) <= StepsTo(s, Place(phase, Length(s, phase), Length(s, phase)))
    ensures x != Place(phase, Length(s, phase), Length(s, phase)) ==>
              StepsTo(s, x) < StepsTo(s, Place(phase, Length(s, phase), Length(s, phase)))
    decreases phase
  {
    if x.phase < phase {
      StepsBounded(s, x, phase - 1);
      assert Length(s, phase) > 0;
    }
  }

  /** A waiting or speaking machine can be found at every place but the last. */
  lemma SomeStep<T(!new)>(s: Session<T>, a: System<T>, x: Place) returns (b: System<T>)
    requires Reached(s, a, x) && x != LastPlace(s)
    ensures Steps(s, a, b)
  {
    hide ClientMove, ServerMove, ClientTakes, ServerTakes, ClientAt, ServerAt, TreeAt, Session.Valid, Fetched, Sent,
         TreeAfter, Messages;
    if x.server < x.client {
      ServerFollows(s, x.phase, x.server);
      MessagesEnds(s, x.phase, x.server, x.client);
      b := a.(server := ServerTakes(s.L, s.B, a.server, a.toServer[0]), toServer := a.toServer[1..]);
    } else if x.client < x.server {
      ClientFollows(s, x.phase, x.client);
      MessagesEnds(s, x.phase, x.client, x.server);
      b := a.(client := ClientTakes(s, a.client, a.toClient[0]), toClient := a.toClient[1..]);
    } else {
      b := SpeakerSteps(s, a, x);
    }
  }

  lemma SpeakerSteps<T(!new)>(s: Session<T>, a: System<T>, x: Place) returns (b: System<T>)
    requires Reached(s, a, x) && x.client == x.server < Length(s, x.phase)
    ensures Steps(s, a, b)
  {
    hide ClientMove, ServerMove, ClientAt, ServerAt, TreeAt, TreeMove, Session.Valid, Fetched, Sent, TreeAfter,
         Messages;
    var said := Said(s, x.phase, x.client);
    if said.byClient {
      ClientFollows(s, x.phase, x.client);
      b := a.(client := ClientAt(s, x.phase, x.client + 1), toServer := a.toServer + [said.message]);
    } else {
      ServerFollows(s, x.phase, x.client);
      b := a.(server := ServerAt(s, x.phase, x.client + 1), toClient := a.toClient + [said.message],
              tree := TreeMove(s.L, s.B, a.tree, a.server));
    }
  }

  /** No interleaving goes wrong: no machine ever meets a message it does not expect, and as long as the
      session is not complete some machine can take a step. */
  lemma NeverStuck<T(!new)>(s: Session<T>, run: seq<System<T>>)
    requires s.Valid() && IsRun(s, run)
    ensures var a := run[|run| - 1];
            && a.client != ClientError && a.server != ServerError
            && (Complete(s, a) || exists b :: Steps(s, a, b))
  {
    var x := RunReached(s, run);
    var a := run[|run| - 1];
    PlaceStates(s, a, x);
    if x == LastPlace(s) {
      LastIsComplete(s, a, x);
    } else {
      var b := SomeStep(s, a, x);
    }
  }

  /** The server stops if and only if the client shuts it down and all accesses have been made: no access
      is taken for a shutdown, and no shutdown for an access. */
  lemma StoppedIff<T(!new)>(s: Session<T>, run: seq<System<T>>)
    requires s.Valid() && IsRun(s, run)
    ensures run[|run| - 1].server == Stopped <==> s.ends && Complete(s, run[|run| - 1])
  {
    var x := RunReached(s, run);
    var a := run[|run| - 1];
    PlaceStates(s, a, x);
    if a.server == Stopped {
      LastIsComplete(s, a, x);
    }
  }

  /** A shutdown leaves the tree alone. */
  lemma {:induction false} EndKeepsTree<T(!new)>(s: Session<T>, ended: bool, k: nat)
    requires s.Valid() && k <= |s.script|
    ensures s.(ends := ended).Valid() && TreeAfter(s.(ends := ended), k) == TreeAfter(s, k)
  {
    hide WriteBack, Fetch, Filled;
    if k > 0 {
      var s' := s.(ends := ended);
      EndKeepsTree(s, ended, k - 1);
      assert Fetched(s', k - 1) == Fetched(s, k - 1);
      assert Sent(s', k - 1) == Sent(s, k - 1);
    }
  }

  lemma EndIsClients<T(!new)>(s: Session<T>)
    requires s.Valid()
    ensures s.ends ==> Said(s, |s.script| + 1, 0).byClient
  {
  }

  lemma PlaceStates<T(!new)>(s: Session<T>, a: System<T>, x: Place)
    requires Reached(s, a, x)
    ensures a.client != ClientError && a.server != ServerError
    ensures a.server == Stopped ==> s.ends && x == LastPlace(s)
  {
    hide TreeAfter, Fetched, Sent;
    EndIsClients(s);
  }

  lemma LastIsComplete<T(!new)>(s: Session<T>, a: System<T>, x: Place)
    requires Reached(s, a, x)
    ensures x == LastPlace(s) ==> Complete(s, a)
  {
  }

  /** All interleavings of a session have the same length and the same end: a run is complete exactly
      when it has that many steps, and no run has more. */
  lemma AllRunsAgree<T(!new)>(s: Session<T>, run: seq<System<T>>)
    requires s.Valid() && IsRun(s, run)
    ensures |run| - 1 <= StepsTo(s, LastPlace(s))
    ensures |run| - 1 == StepsTo(s, LastPlace(s)) <==> Complete(s, run[|run| - 1])
  {
    var x := RunReached(s, run);
    StepsBounded(s, x, s.Last());
    LastIsComplete(s, run[|run| - 1], x);
    if Complete(s, run[|run| - 1]) {
      CompleteIsLast(s, run[|run| - 1], x);
    }
  }

  lemma CompleteIsLast<T(!new)>(s: Session<T>, a: System<T>, x: Place)
    requires Reached(s, a, x) && Complete(s, a)
    ensures x == LastPlace(s)
  {
    hide TreeAfter, Fetched, Sent;
    if x.phase <= |s.script| && x.client == Length(s, x.phase) {
      ClientThrough(s, a, x);
    }
  }

  /** Whenever the client is about to start access `k`, the acknowledgement of the one before has been
      taken: both queues are empty, the server waits for a request, and its tree is that of the first
      `k` accesses. */
  lemma QuietBetweenAccesses<T(!new)>(s: Session<T>, run: seq<System<T>>, k: nat)
    requires s.Valid() && IsRun(s, run) && run[|run| - 1].client == StartAccess(k)
    ensures var a := run[|run| - 1];
            k <= |s.script| && a.toServer == [] && a.toClient == [] && a.server == AwaitRequest &&
                a.tree == TreeAfter(s, k)
  {
    var x := RunReached(s, run);
    QuietAt(s, run[|run| - 1], x, k);
  }

  lemma QuietAt<T(!new)>(s: Session<T>, a: System<T>, x: Place, k: nat)
    requires Reached(s, a, x) && a.client == StartAccess(k)
    ensures k <= |s.script| && a.toServer == [] && a.toClient == [] && a.server == AwaitRequest
    ensures a.tree == TreeAfter(s, k)
  {
    hide TreeAfter, Fetched, Sent;
    if x.client == Length(s, x.phase) {
      ClientThrough(s, a, x);
    } else {
      assert Said(s, x.phase, 0).byClient;
      assert x.client == 0 && x.server == 0;
    }
  }

  // ----- Messages that are not expected -----

  /** The client refuses every message but the one it waits for: the flag, the count, a block, or the
      number of its own request. */
  lemma ClientRefusesIff<T(!new)>(s: Session<T>, c: ClientState<T>, m: Message<T>)
    requires match c case Receiving(k, _, _) => k < |s.script| case AwaitAck(k) => k < |s.script| case _ => true
    ensures ClientTakes(s, c, m) != ClientError <==>
            || (c.AwaitFlag? && m.Flag?)
            || (c.AwaitReady? && m == Flag(true))
            || (c.AwaitCount? && m.Count?)
            || (c.Receiving? && m.Block?)
            || (c.AwaitAck? && m == Id(s.script[c.k].requestId))
  {
  }

  /** A server that is up already is not sent initial blocks. */
  lemma UpNeedsNoBlocks<T(!new)>(s: Session<T>, up: bool)
    ensures ClientTakes(s, AwaitFlag, Flag(up)) == if up then StartAccess(0) else SendInitial(0)
    ensures ClientTakes(s, AwaitReady, Flag(true)) == StartAccess(0)
  {
  }

  /** The server refuses every message but the one it waits for, and every leaf that is not one; request id
      0 alone stops it, and only between two accesses. */
  lemma ServerRefusesIff<T(!new)>(L: nat, B: nat, v: ServerState<T>, m: Message<T>)
    ensures ServerTakes(L, B, v, m) != ServerError <==>
            || ((v.ReceiveInitial? || v.ReceiveBlocks?) && m.Block?)
            || (v.AwaitRequest? && m.Id?)
            || (v.AwaitLeaf? && m.Id? && ValidLeaf(L, m.n))
    ensures ServerTakes(L, B, v, m) == Stopped <==> v.AwaitRequest? && m == Id(0)
  {
  }
}
