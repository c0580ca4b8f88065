/** Client and server together as one machine: a step is a put, a get or a clear
    (src/single_client.cpp:190-383), for given draws and a given enumeration of the stash. The methods of
    SingleClient are proved to take these steps, for any number of blocks per bucket. */
module Machine {
  import opened Arithmetic
  import opened Paths
  import opened Wrappers
  import opened Bytes
  import opened Slots
  import opened BranchLoop
  import opened Replacement
  import opened StashScan
  import opened Traversal
  import opened Tree
  import opened Refinement
  import opened IdAllocation

  datatype Request =
    | PutRequest(key: Key, value: Data)
    | GetRequest(key: Key)
    | ClearRequest(key: Key)

  /** The return code, and the values that are handed back. */
  datatype Response = Response(code: int, values: seq<Data>)

  // ----- The plain map -----

  function Answer(m: map<Key, Data>, r: Request): Response {
    match r
    case PutRequest(_, _) => Response(0, [])
    case GetRequest(key) => if key in m then Response(0, [m[key]]) else Response(-1, [])
    case ClearRequest(_) => Response(0, [])
  }

  function Update(m: map<Key, Data>, r: Request): map<Key, Data> {
    match r
    case PutRequest(key, value) => m[key := value]
    case GetRequest(_) => m
    case ClearRequest(key) => m - {key}
  }

  /** A new key finds an unused block id. */
  predicate HasRoom(idSpace: nat, m: map<Key, Data>, r: Request) {
    r.PutRequest? ==> r.key in m || |m| < idSpace - 1
  }

  // ----- One access -----

  /** What chance decides in a step: the leaf of a new id, the new leaf of the requested block and the
      order in which the stash is enumerated; and the id that the key gets. */
  datatype Choice = Choice(id: nat, mapLeaf: nat, newLeaf: nat, order: seq<nat>)

  /** The access runs to its end: a clear that would read its null buffer does not. */
  ghost predicate CanAccess(w: World, op: Operation, buffer: Option<Data>, x: Choice) {
    && Shaped(w.L, w.B, w.tree) && x.id in w.positions && w.Traversing(x.id).Valid() && ValidLeaf(w.L, x.newLeaf)
    && ScanOrder(w.Traversing(x.id), w.Fetched(w.positions[x.id]), x.order)
    && (op.Clear? <==> buffer.None?)
    && !ReadsNull(w.Traversing(x.id), w.Fetched(w.positions[x.id]), op, x.order)
  }

  ghost function Traversed(w: World, op: Operation, buffer: Option<Data>, x: Choice): (r: Result)
    requires CanAccess(w, op, buffer, x)
  {
    Traverse(w.Traversing(x.id), w.Fetched(w.positions[x.id]), op, buffer, x.newLeaf, x.order)
  }

  lemma TraversedSize(w: World, op: Operation, buffer: Option<Data>, x: Choice)
    requires CanAccess(w, op, buffer, x)
    ensures |Traversed(w, op, buffer, x).st.branch| == Start(w.B, w.L)
    ensures Traversed(w, op, buffer, x).positions == w.positions[x.id := x.newLeaf] ||
            (op.Clear? && Traversed(w, op, buffer, x).positions == w.positions)
  {
    ReachBounds(w.Traversing(x.id), x.newLeaf);
  }

  ghost function Accessed(w: World, op: Operation, buffer: Option<Data>, x: Choice): (w': World)
    requires CanAccess(w, op, buffer, x)
  {
    TraversedSize(w, op, buffer, x);
    var r := Traversed(w, op, buffer, x);
    w.Rewritten(w.positions[x.id], r.st, r.positions)
  }

  /** The scan of this access places no block twice. */
  ghost predicate Tidy(w: World, x: Choice) {
    Shaped(w.L, w.B, w.tree) && x.id in w.positions && ValidLeaf(w.L, w.positions[x.id]) ==>
      ScansOnce(w.Traversing(x.id), w.Fetched(w.positions[x.id]), x.order)
  }

  lemma OneSlotIsTidy(w: World, x: Choice)
    requires w.B == 1
    ensures Tidy(w, x)
  {
    if Shaped(w.L, w.B, w.tree) && x.id in w.positions && ValidLeaf(w.L, w.positions[x.id]) {
      var c, st := w.Traversing(x.id), w.Fetched(w.positions[x.id]);
      OneSlotPlacesOnce(c, Walk(c, st, 0).st.branch, x.order);
    }
  }

  /** One access to a stored or new id keeps every block on its path and updates the stored pairs as the
      operation says; the main invariant is kept if and only if the access is tidy. */
  lemma AccessKeeps(w: World, op: Operation, buffer: Option<Data>, x: Choice)
    requires w.Consistent() && CanAccess(w, op, buffer, x) && x.id != 0
    requires op.Write? || exists d :: w.Stored(x.id, d)
    ensures var w' := Accessed(w, op, buffer, x);
            && w'.Placed() && w'.positions.Keys == w.positions.Keys
            && StoredUpdated(op, x.id, buffer.GetOr([]), w, w')
            && (OneCopy(w'.tree, w'.stash) <==> Tidy(w, x))
    ensures var out := Traversed(w, op, buffer, x).buffer;
            op.Read? ==> out.Some? && w.Stored(x.id, out.value)
  {
    hide Traverse, Achieves, ScanOrder, ScansOnce, World.OnOwnPath, OneCopy, ReadsNull;
    FetchedIsReady(w, x.id);
    StoredIsFetched(w, x.id);
    TraversedSize(w, op, buffer, x);
    TraverseCorrect(w.Traversing(x.id), w.Fetched(w.positions[x.id]), op, buffer, x.newLeaf, x.order);
    AccessCorrect(w, x.id, op, buffer, x.newLeaf, Traversed(w, op, buffer, x));
  }

  // ----- One request -----

  datatype Pair = Pair(world: World, keys: map<Key, nat>)

  /** The id of a known key, or the number at which the search stops, as a block id. */
  ghost predicate IdFor(p: Pair, idSpace: nat, key: Key, id: nat) {
    if key in p.keys then id == p.keys[key]
    else idSpace > 0 && exists i: nat :: Searched(p.world.positions, idSpace, i) && id == Wrap(i, idSpace)
  }

  /** For a new key its id is mapped before the access, whether it was mapped or not. */
  ghost function Prepared(p: Pair, key: Key, x: Choice): World {
    if key in p.keys then p.world else p.world.(positions := p.world.positions[x.id := x.mapLeaf])
  }

  ghost predicate PutStep(idSpace: nat, p: Pair, key: Key, value: Data, x: Choice, p': Pair) {
    var w := Prepared(p, key, x);
    && IdFor(p, idSpace, key, x.id) && ValidLeaf(w.L, x.mapLeaf)
    && CanAccess(w, Write, Some(value), x)
    && p' == Pair(Accessed(w, Write, Some(value), x), p.keys[key := x.id])
  }

  ghost predicate GetStep(p: Pair, key: Key, zeros: Data, x: Choice, result: Option<Data>, p': Pair) {
    if key !in p.keys then p' == p && result == None
    else
      && x.id == p.keys[key] && CanAccess(p.world, Read, Some(zeros), x)
      && p' == Pair(Accessed(p.world, Read, Some(zeros), x), p.keys)
      && result == Traversed(p.world, Read, Some(zeros), x).buffer
  }

  ghost predicate GotStep(p: Pair, key: Key, x: Choice, result: Option<Data>, p': Pair) {
    exists zeros :: GetStep(p, key, zeros, x, result, p')
  }

  ghost predicate ClearStep(p: Pair, key: Key, x: Choice, p': Pair) {
    if key !in p.keys then p' == p
    else
      && x.id == p.keys[key] && CanAccess(p.world, Operation.Clear, None, x)
      && var w := Accessed(p.world, Operation.Clear, None, x);
      p' == Pair(w.(positions := w.positions - {x.id}), p.keys - {key})
  }

  ghost predicate Step(idSpace: nat, p: Pair, r: Request, x: Choice, response: Response, p': Pair) {
    match r
    case PutRequest(key, value) => PutStep(idSpace, p, key, value, x, p') && response == Response(0, [])
    case GetRequest(key) =>
      exists result: Option<Data> :: GotStep(p, key, x, result, p') &&
        response == if result.Some? then Response(0, [result.value]) else Response(-1, [])
    case ClearRequest(key) => ClearStep(p, key, x, p') && response == Response(0, [])
  }

  /** The access of the step is tidy, or there is none. */
  ghost predicate TidyStep(p: Pair, r: Request, x: Choice) {
    r.PutRequest? || r.key in p.keys ==> Tidy(Prepared(p, r.key, x), x)
  }

  ghost predicate Good(idSpace: nat, p: Pair, m: map<Key, Data>) {
    idSpace > 1 && Represents(p.world, p.keys, m) && IdsIn(p.world.positions, idSpace)
  }

  /** Whatever the draws and the enumeration, a request from a good state is answered as by the plain
      map. The next state is good again, for the updated map, if and only if a block id was left and the
      scan placed no block twice. */
  lemma StepCorrect(idSpace: nat, p: Pair, m: map<Key, Data>, r: Request, x: Choice, response: Response, p': Pair)
    requires Good(idSpace, p, m) && Step(idSpace, p, r, x, response, p')
    ensures response == Answer(m, r)
    ensures Good(idSpace, p', Update(m, r)) <==> HasRoom(idSpace, m, r) && TidyStep(p, r, x)
    ensures HasRoom(idSpace, m, r) ==> AllStored(p'.world, p'.keys, Update(m, r))
    ensures !HasRoom(idSpace, m, r) ==> forall m' :: !Good(idSpace, p', m')
  {
    hide GetStep, ClearStep, PutStep, Good, TidyStep, AllStored, IdsIn;
    match r {
      case PutRequest(key, value) => PutCorrect(idSpace, p, m, key, value, x, p');
      case GetRequest(key) =>
        var result: Option<Data> :| GotStep(p, key, x, result, p') &&
          response == if result.Some? then Response(0, [result.value]) else Response(-1, []);
        var zeros :| GetStep(p, key, zeros, x, result, p');
        GetCorrect(idSpace, p, m, key, zeros, x, result, p');
      case ClearRequest(key) => ClearCorrect(idSpace, p, m, key, x, p');
    }
  }

  lemma GoodFacts(idSpace: nat, p: Pair, m: map<Key, Data>)
    requires Good(idSpace, p, m)
    ensures idSpace > 1 && Represents(p.world, p.keys, m) && IdsIn(p.world.positions, idSpace)
    ensures p.world.Consistent() && m.Keys == p.keys.Keys && |p.world.positions| == |m|
    ensures forall k :: k in p.keys ==>
            p.keys[k] in p.world.positions && p.keys[k] != 0 && p.world.Stored(p.keys[k], m[k])
  {
    RepresentsFacts(p.world, p.keys, m);
    KeyedSize(p.world.positions, p.keys);
    assert |m.Keys| == |m| && |p.keys.Keys| == |p.keys|;
  }

  /** Only the bound of the ids is left to show. */
  lemma GoodAgain(idSpace: nat, p: Pair, m: map<Key, Data>, before: map<nat, nat>)
    requires idSpace > 1 && IdsIn(before, idSpace) && p.world.positions.Keys <= before.Keys
    ensures Good(idSpace, p, m) <==> Represents(p.world, p.keys, m)
  {
    hide Represents;
  }

  lemma PutCorrect(idSpace: nat, p: Pair, m: map<Key, Data>, key: Key, value: Data, x: Choice, p': Pair)
    requires Good(idSpace, p, m) && PutStep(idSpace, p, key, value, x, p')
    ensures var r := PutRequest(key, value);
            && (Good(idSpace, p', Update(m, r)) <==> HasRoom(idSpace, m, r) && TidyStep(p, r, x))
            && (HasRoom(idSpace, m, r) ==> AllStored(p'.world, p'.keys, Update(m, r)))
            && (!HasRoom(idSpace, m, r) ==> forall m' :: !Good(idSpace, p', m'))
  {
    hide Good, Represents, AllStored, Tidy, CanAccess, Accessed, World.Consistent, IdsIn, StoredUpdated;
    GoodFacts(idSpace, p, m);
    if key in p.keys {
      PutKnown(idSpace, p, m, key, value, x, p');
    } else {
      PutNew(idSpace, p, m, key, value, x, p');
    }
  }

  lemma PutKnown(idSpace: nat, p: Pair, m: map<Key, Data>, key: Key, value: Data, x: Choice, p': Pair)
    requires Good(idSpace, p, m) && PutStep(idSpace, p, key, value, x, p') && key in p.keys
    ensures Good(idSpace, p', m[key := value]) <==> Tidy(Prepared(p, key, x), x)
    ensures AllStored(p'.world, p'.keys, m[key := value])
  {
    hide Good, Represents, AllStored, Tidy, CanAccess, Accessed, World.Consistent, World.Placed, OneCopy, IdsIn,
         StoredUpdated;
    GoodFacts(idSpace, p, m);
    AccessKeeps(p.world, Write, Some(value), x);
    WriteRepresents(p.world, p.keys, m, key, value, p'.world);
    assert p.keys[key := x.id] == p.keys;
    GoodAgain(idSpace, p', m[key := value], p.world.positions);
  }

  lemma PutNew(idSpace: nat, p: Pair, m: map<Key, Data>, key: Key, value: Data, x: Choice, p': Pair)
    requires Good(idSpace, p, m) && PutStep(idSpace, p, key, value, x, p') && key !in p.keys
    ensures Good(idSpace, p', m[key := value]) <==> |m| < idSpace - 1 && Tidy(Prepared(p, key, x), x)
    ensures |m| < idSpace - 1 ==> AllStored(p'.world, p'.keys, m[key := value])
    ensures |m| >= idSpace - 1 ==> forall m' :: !Good(idSpace, p', m')
  {
    hide *;
    GoodFacts(idSpace, p, m);
    PutStepFacts(idSpace, p, key, value, x, p');
    NewId(idSpace, p, key, x);
    PreparedNew(p, key, x);
    var w := Prepared(p, key, x);
    MapNewId(p.world, x.id, x.mapLeaf);
    if x.id != 0 {
      AccessKeeps(w, Write, Some(value), x);
      InsertRepresents(p.world, p.keys, m, key, x.id, x.mapLeaf, value, p'.world);
      IdsInMore(p.world.positions, x.id, x.mapLeaf, idSpace);
      GoodAgain(idSpace, p', m[key := value], w.positions);
    } else {
      ZeroIsNotGood(idSpace, p', key);
    }
  }

  lemma PutStepFacts(idSpace: nat, p: Pair, key: Key, value: Data, x: Choice, p': Pair)
    requires PutStep(idSpace, p, key, value, x, p')
    ensures var w := Prepared(p, key, x);
            && IdFor(p, idSpace, key, x.id) && ValidLeaf(p.world.L, x.mapLeaf) && CanAccess(w, Write, Some(value), x)
            && p' == Pair(Accessed(w, Write, Some(value), x), p.keys[key := x.id])
            && Some(value).GetOr([]) == value
  {
    hide CanAccess, Accessed;
  }

  lemma PreparedNew(p: Pair, key: Key, x: Choice)
    requires key !in p.keys
    ensures Prepared(p, key, x) == p.world.(positions := p.world.positions[x.id := x.mapLeaf])
    ensures Prepared(p, key, x).positions.Keys == p.world.positions.Keys + {x.id}
  {
  }

  lemma NewId(idSpace: nat, p: Pair, key: Key, x: Choice)
    requires idSpace > 1 && IdsIn(p.world.positions, idSpace) && key !in p.keys && IdFor(p, idSpace, key, x.id)
    ensures x.id !in p.world.positions && x.id < idSpace && (x.id != 0 <==> |p.world.positions| < idSpace - 1)
  {
    hide Wrap, Searched;
    var i: nat :| Searched(p.world.positions, idSpace, i) && x.id == Wrap(i, idSpace);
    AtMostIdSpace(p.world.positions, idSpace);
    FreshIdIff(p.world.positions, idSpace, i);
  }

  lemma IdsInMore(positions: map<nat, nat>, id: nat, leaf: nat, idSpace: nat)
    requires IdsIn(positions, idSpace) && 0 < id < idSpace
    ensures IdsIn(positions[id := leaf], idSpace)
  {
  }

  lemma ZeroIsNotGood(idSpace: nat, p: Pair, key: Key)
    requires key in p.keys && p.keys[key] == 0
    ensures forall m :: !Good(idSpace, p, m)
  {
    forall m | Good(idSpace, p, m)
      ensures false
    {
      GoodFacts(idSpace, p, m);
    }
  }

  lemma GetCorrect(idSpace: nat, p: Pair, m: map<Key, Data>, key: Key, zeros: Data, x: Choice, result: Option<Data>,
      p': Pair)
    requires Good(idSpace, p, m) && GetStep(p, key, zeros, x, result, p')
    ensures result == if key in m then Some(m[key]) else None
    ensures Good(idSpace, p', m) <==> TidyStep(p, GetRequest(key), x)
    ensures AllStored(p'.world, p'.keys, m)
  {
    hide Good, Represents, Tidy, CanAccess, Accessed, Traversed, World.Consistent, World.Placed, OneCopy, IdsIn,
         StoredUpdated, AllStored;
    GoodFacts(idSpace, p, m);
    if key in p.keys {
      AccessKeeps(p.world, Read, Some(zeros), x);
      ReadRepresents(p.world, p.keys, m, key, zeros, p'.world);
      StoredOnce(p.world, x.id, result.value, m[key]);
      GoodAgain(idSpace, p', m, p.world.positions);
    } else {
      StoredFacts(p.world, p.keys, m);
    }
  }

  lemma StoredFacts(w: World, keys: map<Key, nat>, m: map<Key, Data>)
    requires Represents(w, keys, m)
    ensures AllStored(w, keys, m)
  {
  }

  lemma ClearCorrect(idSpace: nat, p: Pair, m: map<Key, Data>, key: Key, x: Choice, p': Pair)
    requires Good(idSpace, p, m) && ClearStep(p, key, x, p')
    ensures Good(idSpace, p', m - {key}) <==> TidyStep(p, ClearRequest(key), x)
    ensures AllStored(p'.world, p'.keys, m - {key})
  {
    hide Good, Represents, Tidy, CanAccess, Accessed, World.Consistent, World.Placed, OneCopy, IdsIn, StoredUpdated,
         AllStored;
    GoodFacts(idSpace, p, m);
    if key in p.keys {
      AccessKeeps(p.world, Operation.Clear, None, x);
      ClearRepresents(p.world, p.keys, m, key, Accessed(p.world, Operation.Clear, None, x));
      GoodAgain(idSpace, p', m - {key}, p.world.positions);
    } else {
      StoredFacts(p.world, p.keys, m);
      assert m - {key} == m;
    }
  }

  lemma EmptyIsGood(idSpace: nat, w: World)
    requires idSpace > 1 && w.B >= 1 && Shaped(w.L, w.B, w.tree) && w.stash == map[] && w.positions == map[]
    requires forall n, o :: 1 <= n < |w.tree| && 0 <= o < |w.tree[n]| ==> w.tree[n][o] == Free
    ensures Good(idSpace, Pair(w, map[]), map[])
  {
    hide Represents;
    EmptyRepresents(w);
  }

  // ----- Whole runs, for any number of blocks per bucket -----

  ghost function After(m: map<Key, Data>, requests: seq<Request>): map<Key, Data> {
    if requests == [] then m
    else Update(After(m, requests[..|requests| - 1]), requests[|requests| - 1])
  }

  datatype Run = Run(states: seq<Pair>, requests: seq<Request>, choices: seq<Choice>, responses: seq<Response>) {

    ghost predicate Steps(idSpace: nat) {
      && |states| == |requests| + 1 && |choices| == |responses| == |requests|
      && forall i :: 0 <= i < |requests| ==>
         Step(idSpace, states[i], requests[i], choices[i], responses[i], states[i + 1])
    }

    /** The plain map before request `i` */
    ghost function Map(m: map<Key, Data>, i: nat): map<Key, Data>
      requires i <= |requests|
    {
      After(m, requests[..i])
    }

    /** A block id was left for request `i`, and its scan placed no block twice. */
    ghost predicate Kept(idSpace: nat, m: map<Key, Data>, i: nat)
      requires Steps(idSpace) && i < |requests|
    {
      HasRoom(idSpace, Map(m, i), requests[i]) && TidyStep(states[i], requests[i], choices[i])
    }

    lemma {:induction false} GoodAt(idSpace: nat, m: map<Key, Data>, i: nat)
      requires Steps(idSpace) && Good(idSpace, states[0], m) && i <= |requests|
      requires forall k :: 0 <= k < i ==> Kept(idSpace, m, k)
      ensures Good(idSpace, states[i], Map(m, i))
    {
      hide Good, Step, HasRoom, TidyStep, Update, Answer;
      if i > 0 {
        GoodAt(idSpace, m, i - 1);
        assert Kept(idSpace, m, i - 1);
        StepCorrect(idSpace, states[i - 1], Map(m, i - 1), requests[i - 1], choices[i - 1], responses[i - 1],
            states[i]);
        assert requests[..i][..i - 1] == requests[..i - 1];
      }
    }

    /** For every number of blocks per bucket: the answers are those of the plain map up to and including
        the first request that finds no block id left or places a block twice; and the state after the
        last request stands for the plain map if and only if that has not happened. */
    lemma RunCorrect(idSpace: nat, m: map<Key, Data>)
      requires Steps(idSpace) && Good(idSpace, states[0], m)
      requires forall i :: 0 <= i < |requests| - 1 ==> Kept(idSpace, m, i)
      ensures forall i :: 0 <= i < |requests| ==> responses[i] == Answer(Map(m, i), requests[i])
      ensures Good(idSpace, states[|requests|], After(m, requests)) <==>
              |requests| == 0 || Kept(idSpace, m, |requests| - 1)
    {
      hide Good, Step, HasRoom, TidyStep, Update, Answer;
      var n := |requests|;
      forall i | 0 <= i < n
        ensures responses[i] == Answer(Map(m, i), requests[i])
        ensures Good(idSpace, states[i + 1], Update(Map(m, i), requests[i])) <==> Kept(idSpace, m, i)
      {
        GoodAt(idSpace, m, i);
        StepCorrect(idSpace, states[i], Map(m, i), requests[i], choices[i], responses[i], states[i + 1]);
      }
    }
  }

  // ----- Range reads -----

  lemma {:induction false} AfterGets(m: map<Key, Data>, requests: seq<Request>)
    requires forall i :: 0 <= i < |requests| ==> requests[i].GetRequest?
    ensures After(m, requests) == m
  {
    if requests != [] {
      AfterGets(m, requests[..|requests| - 1]);
    }
  }

  /** A range read, for every number of blocks per bucket: as long as no get but the last has placed a block
      twice, the gets hand back the values of the keys, and the map is unchanged; the state after them is
      good if and only if the last has not either. */
  lemma RangeCorrect(idSpace: nat, run: Run, m: map<Key, Data>, keys: seq<Key>)
    requires run.Steps(idSpace) && Good(idSpace, run.states[0], m) && |run.requests| == |keys|
    requires forall i :: 0 <= i < |keys| ==> keys[i] in m && run.requests[i] == GetRequest(keys[i])
    requires forall i :: 0 <= i < |keys| - 1 ==> TidyStep(run.states[i], run.requests[i], run.choices[i])
    ensures forall i :: 0 <= i < |keys| ==> run.responses[i] == Response(0, [m[keys[i]]])
    ensures var n := |keys|;
            Good(idSpace, run.states[n], m) <==>
              n == 0 || TidyStep(run.states[n - 1], run.requests[n - 1], run.choices[n - 1])
  {
    hide Good, Step, TidyStep;
    var n := |keys|;
    forall i | 0 <= i <= n
      ensures run.Map(m, i) == m
    {
      AfterGets(m, run.requests[..i]);
    }
    forall i | 0 <= i < n
      ensures run.Kept(idSpace, m, i) <==> TidyStep(run.states[i], run.requests[i], run.choices[i])
    {
    }
    run.RunCorrect(idSpace, m);
    assert run.requests[..n] == run.requests;
  }
}
