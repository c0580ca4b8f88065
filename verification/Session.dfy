/** Whole runs: from the first connection on, client and server together answer every sequence of
    requests as a plain map would. */
module Session {
  import opened Bytes
  import opened Configuration
  import opened Blocks
  import opened PathServer
  import opened KeyOrder
  import opened Ledgers
  import opened Machine
  import opened Client
  import Lockstep

  /** A put, a get or a clear, or a range read, which is a sequence of gets. */
  datatype Call = Single(request: Request) | Range(begin: Key, end: Key)

  // ----- The plain map -----

  ghost function AnswerCall(m: map<Key, Data>, call: Call): Response {
    match call
    case Single(request) => Answer(m, request)
    case Range(begin, end) => Response(0, ValuesOf(m, Ascending(Between(m.Keys, begin, end))))
  }

  function UpdateCall(m: map<Key, Data>, call: Call): map<Key, Data> {
    match call
    case Single(request) => Update(m, request)
    case Range(_, _) => m
  }

  ghost function Answers(m: map<Key, Data>, script: seq<Call>): seq<Response>
    decreases script
  {
    if script == [] then [] else [AnswerCall(m, script[0])] + Answers(UpdateCall(m, script[0]), script[1..])
  }

  function UpdateAll(m: map<Key, Data>, script: seq<Call>): map<Key, Data>
    decreases script
  {
    if script == [] then m else UpdateAll(UpdateCall(m, script[0]), script[1..])
  }

  /** What the callers' types demand (values of the block's data size), and that a range read ends
      (`KeyOrder.WalkEndsIff`). */
  ghost predicate Admissible(cfg: Config, m: map<Key, Data>, call: Call)
    requires cfg.Legal()
  {
    match call
    case Single(request) => request.PutRequest? ==> |request.value| == cfg.DataBytes()
    case Range(begin, end) => NoneBetween(m.Keys, end, begin)
  }

  /** A block id is left for a new key. */
  predicate RoomFor(cfg: Config, m: map<Key, Data>, call: Call)
    requires cfg.Legal()
  {
    call.Single? ==> HasRoom(cfg.IdSpace(), m, call.request)
  }

  ghost predicate AllAdmissible(cfg: Config, m: map<Key, Data>, script: seq<Call>)
    requires cfg.Legal()
    decreases script
  {
    script == [] ||
    (Admissible(cfg, m, script[0]) && RoomFor(cfg, m, script[0]) &&
        AllAdmissible(cfg, UpdateCall(m, script[0]), script[1..]))
  }

  /** One call to the running pair. The answer is always that of the plain map. With one slot per bucket
      the pair goes on to stand for the updated map if and only if a block id was left; for a single
      request and any number of slots, `Put`, `Get` and `Clear` state the exact condition. */
  method Serve(client: SingleClient, call: Call) returns (response: Response)
    requires client.Valid() && client.cfg.Legal() && Admissible(client.cfg, client.contents, call)
    requires call.Range? ==> client.cfg.blocks == 1
    modifies client, client.server, client.server.store
    ensures response == AnswerCall(old(client.contents), call)
    ensures client.cfg.blocks == 1 ==> (client.Valid() <==> RoomFor(client.cfg, old(client.contents), call))
    ensures RoomFor(client.cfg, old(client.contents), call) ==>
            client.contents == UpdateCall(old(client.contents), call)
  {
    hide SingleClient.Valid, SingleClient.Connected, SingleClient.Both, SingleClient.Whole, SingleClient.OneAccess,
         SingleClient.Saved;
    hide Ascending, Between, ValuesOf, PutStep, GotStep, ClearStep, TidyStep, NoneBetween;
    match call {
      case Single(PutRequest(key, value)) =>
        ghost var x;
        var rc;
        rc, x := client.Put(key, value);
        response := Response(rc, []);
      case Single(GetRequest(key)) =>
        ghost var x;
        var rc, value;
        rc, value, x := client.Get(key, []);
        response := Response(rc, if rc == 0 then [value] else []);
      case Single(ClearRequest(key)) =>
        ghost var x;
        var rc;
        rc, x := client.Clear(key);
        response := Response(rc, []);
      case Range(begin, end) =>
        client.ValidFacts();
        var rc, values := client.ReadRange(begin, end, []);
        response := Response(rc, values);
    }
  }

  /** Refinement over all runs: with one block per bucket, for every tree height, every script and all
      random draws, the answers are those of a plain map, and the pair stands for that map at the end.
      The server has recorded nothing but the first connection and the accesses of its session, each
      determined by two random numbers; every leaf among these is a draw of its own; and the tree is that
      of the session's accesses. `Machine.Run.RunCorrect` is the statement for more blocks. */
  method Run(cfg: Config, cipher: Cipher, random: nat -> nat, noise: (nat, nat) -> byte, script: seq<Call>)
    returns (client: SingleClient, responses: seq<Response>)
    requires cfg.Legal() && cfg.blocks == 1 && cfg.Capacity() <= Space(4) && cipher.Inverts(cfg.blockSize)
    requires AllAdmissible(cfg, map[], script)
    ensures responses == Answers(map[], script)
    ensures client.Valid() && client.cfg == cfg && client.contents == UpdateAll(map[], script)
    ensures var server := client.server;
            && OnlyAccesses(cfg, server.trace, server.session.script)
            && Logged(cfg, server.session, server.store[..])
    ensures client.Book().Fresh(client.positionMap) && LeavesSeen(client.server.trace) == client.Book().Leaves()
  {
    hide SingleClient.Valid, AnswerCall, UpdateCall, Admissible, RoomFor, Config.Legal, Cipher.Inverts;
    var server := new Server(cfg);
    client := new SingleClient(cfg, cipher, server, random, noise);
    client.Initialize();
    responses := [];
    var i := 0;
    while i < |script|
      invariant 0 <= i <= |script|
      invariant client.Valid() && client.cfg == cfg && client.server == server && fresh(client) && fresh(server)
      invariant fresh(server.store)
      invariant AllAdmissible(cfg, client.contents, script[i..])
      invariant responses + Answers(client.contents, script[i..]) == Answers(map[], script)
      invariant UpdateAll(client.contents, script[i..]) == UpdateAll(map[], script)
    {
      assert script[i..][0] == script[i] && script[i..][1..] == script[i + 1..];
      var response := Serve(client, script[i]);
      responses := responses + [response];
      i := i + 1;
    }
    client.ValidFacts();
    client.BookFacts();
    ServerFacts(client);
  }

  lemma ServerFacts(client: SingleClient)
    requires client.Valid()
    ensures Logged(client.cfg, client.server.session, client.server.store[..])
  {
  }

  /** The method calls between client and server stand for every asynchronous execution of the same
      session, with or without a shutdown at the end: when the two separate programs have completed it,
      in whatever interleaving, they have the same tree; and only then has a shutdown stopped the server. */
  lemma AsynchronousTree(client: SingleClient, ended: bool, run: seq<Lockstep.System<Wire>>)
    requires client.Valid()
    ensures client.server.session.(ends := ended).Valid()
    ensures var s := client.server.session.(ends := ended);
            Lockstep.IsRun(s, run) ==>
              var last := run[|run| - 1];
              && (|run| - 1 == Lockstep.StepsTo(s, Lockstep.LastPlace(s)) ==>
                 last.tree == client.server.store[..] && last.toServer == [] && last.toClient == [])
              && (last.server == Lockstep.Stopped <==>
                 ended && |run| - 1 == Lockstep.StepsTo(s, Lockstep.LastPlace(s)))
  {
    hide Lockstep.IsRun, Lockstep.StepsTo, Lockstep.LastPlace, Lockstep.TreeAfter, Lockstep.Session.Valid;
    ServerFacts(client);
    Lockstep.EndKeepsTree(client.server.session, ended, |client.server.session.script|);
    var s := client.server.session.(ends := ended);
    if Lockstep.IsRun(s, run) {
      Lockstep.AllRunsAgree(s, run);
      Lockstep.StoppedIff(s, run);
    }
  }

  /** A range read as a run of gets, for every number of blocks per bucket: the values are those of the
      keys in the range, in ascending order, as long as no get but the last has placed a block twice. */
  lemma RangeOfGets(idSpace: nat, run: Run, m: map<Key, Data>, begin: Key, end: Key)
    requires run.Steps(idSpace) && Good(idSpace, run.states[0], m)
    requires var keys := Ascending(Between(m.Keys, begin, end));
             |run.requests| == |keys| && forall i :: 0 <= i < |keys| ==> run.requests[i] == GetRequest(keys[i])
    requires forall i :: 0 <= i < |run.requests| - 1 ==> TidyStep(run.states[i], run.requests[i], run.choices[i])
    ensures var values := ValuesOf(m, Ascending(Between(m.Keys, begin, end)));
            |run.responses| == |values| &&
            forall i :: 0 <= i < |values| ==> run.responses[i] == Response(0, [values[i]])
    ensures var n := |run.requests|;
            Good(idSpace, run.states[n], m) <==>
              n == 0 || TidyStep(run.states[n - 1], run.requests[n - 1], run.choices[n - 1])
  {
    hide Good, TidyStep, Step, Ascending, Between;
    var range := Between(m.Keys, begin, end);
    AscendingSpec(range);
    InRange(m, begin, end);
    forall i | 0 <= i < |Ascending(range)|
      ensures Ascending(range)[i] in m
    {
      assert Ascending(range)[i] in Ascending(range);
    }
    RangeCorrect(idSpace, run, m, Ascending(range));
  }

  lemma InRange(m: map<Key, Data>, begin: Key, end: Key)
    ensures forall k :: k in Between(m.Keys, begin, end) ==> k in m
  {
  }
}
