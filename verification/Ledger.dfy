/** Where the leaves that the server sees come from: a book-keeping of random draws. */
module Ledgers {
  import opened Arithmetic
  import opened Paths
  import opened Configuration
  import opened PathServer
  import opened Refinement

  /** All draws so far; for each mapped id the index of the draw that gave its leaf; the indices of
      the draws that were sent to the server as a leaf, in order. */
  datatype Ledger = Ledger(draws: seq<nat>, mapped: map<nat, nat>, sent: seq<nat>) {

    /** Every mapped leaf is a draw of its own that the server has not seen as a leaf yet; the leaves
        the server has seen are draws, each sent once. */
    ghost predicate Fresh(positions: map<nat, nat>) {
      && mapped.Keys == positions.Keys
      && (forall id :: id in mapped ==> mapped[id] < |draws| && draws[mapped[id]] == positions[id])
      && Injective(mapped)
      && (forall i :: 0 <= i < |sent| ==> sent[i] < |draws| && sent[i] !in mapped.Values)
      && (forall i, j | 0 <= i < |sent| && 0 <= j < |sent| && sent[i] == sent[j] :: i == j)
    }

    ghost function Leaves(): seq<nat>
      requires forall i :: 0 <= i < |sent| ==> sent[i] < |draws|
    {
      seq(|sent|, i requires 0 <= i < |sent| => draws[sent[i]])
    }

    /** More draws that are not mapped, such as request ids. */
    lemma DrawMore(positions: map<nat, nat>, more: seq<nat>)
      requires Fresh(positions)
      ensures this.(draws := draws + more).Fresh(positions)
      ensures this.(draws := draws + more).Leaves() == Leaves()
    {
    }

    /** The id is mapped to the last draw. */
    lemma MapLast(positions: map<nat, nat>, id: nat)
      requires draws != [] && |draws| - 1 !in mapped.Values && |draws| - 1 !in sent && Fresh(positions)
      ensures this.(mapped := mapped[id := |draws| - 1]).Fresh(positions[id := draws[|draws| - 1]])
      ensures this.(mapped := mapped[id := |draws| - 1]).Leaves() == Leaves()
    {
      var l := this.(mapped := mapped[id := |draws| - 1]);
      forall v | v in l.mapped.Values
        ensures v == |draws| - 1 || v in mapped.Values
      {
        var i :| i in l.mapped && l.mapped[i] == v;
        assert i != id ==> mapped[i] in mapped.Values;
      }
      forall i | i in mapped
        ensures mapped[i] != |draws| - 1
      {
        assert mapped[i] in mapped.Values;
      }
    }

    /** A leaf is sent; its id is erased from the position map, if only to be mapped again. */
    lemma SendAndForget(positions: map<nat, nat>, id: nat)
      requires Fresh(positions) && id in positions
      ensures Ledger(draws, mapped - {id}, sent + [mapped[id]]).Fresh(positions - {id})
      ensures Ledger(draws, mapped - {id}, sent + [mapped[id]]).Leaves() == Leaves() + [positions[id]]
    {
      var l := Ledger(draws, mapped - {id}, sent + [mapped[id]]);
      assert mapped[id] in mapped.Values;
      forall v | v in l.mapped.Values
        ensures v in mapped.Values && v != mapped[id]
      {
        var i :| i in l.mapped && l.mapped[i] == v;
        assert i in mapped && mapped[i] == v;
      }
      forall i, j | 0 <= i < |l.sent| && 0 <= j < |l.sent| && l.sent[i] == l.sent[j]
        ensures i == j
      {
      }
    }
  }

  /** The ledger after an access that remaps the requested id with its last draw. */
  lemma Remapped(l: Ledger, positions: map<nat, nat>, id: nat, more: seq<nat>, leaf: nat)
    requires l.Fresh(positions) && id in positions
    ensures var l' := Ledger(l.draws + more + [leaf], l.mapped[id := |l.draws| + |more|], l.sent + [l.mapped[id]]);
            l'.Fresh(positions[id := leaf]) && l'.Leaves() == l.Leaves() + [positions[id]]
  {
    hide Injective;
    l.SendAndForget(positions, id);
    var l1 := Ledger(l.draws, l.mapped - {id}, l.sent + [l.mapped[id]]);
    l1.DrawMore(positions - {id}, more + [leaf]);
    var l2 := l1.(draws := l1.draws + (more + [leaf]));
    assert l2.draws == l.draws + more + [leaf];
    LastUnused(l1, positions - {id}, |l.draws| + |more|);
    l2.MapLast(positions - {id}, id);
    assert (positions - {id})[id := leaf] == positions[id := leaf];
    assert (l.mapped - {id})[id := |l.draws| + |more|] == l.mapped[id := |l.draws| + |more|];
  }

  lemma LastUnused(l: Ledger, positions: map<nat, nat>, n: nat)
    requires l.Fresh(positions) && n >= |l.draws|
    ensures n !in l.mapped.Values && n !in l.sent
  {
    forall v | v in l.mapped.Values
      ensures v != n
    {
      var i :| i in l.mapped && l.mapped[i] == v;
    }
  }

  /** The ledger after a new id has been mapped to a draw. */
  lemma Inserted(l: Ledger, positions: map<nat, nat>, id: nat, leaf: nat)
    requires l.Fresh(positions)
    ensures var l' := Ledger(l.draws + [leaf], l.mapped[id := |l.draws|], l.sent);
            l'.Fresh(positions[id := leaf]) && l'.Leaves() == l.Leaves()
  {
    l.DrawMore(positions, [leaf]);
    LastUnused(l, positions, |l.draws|);
    l.(draws := l.draws + [leaf]).MapLast(positions, id);
  }

  /** The leaves in a trace, in order. */
  function LeavesSeen(trace: seq<Event>): seq<nat> {
    if trace == [] then []
    else LeavesSeen(trace[..|trace| - 1]) +
         (match trace[|trace| - 1] case ReceivedLeaf(leaf) => [leaf] case _ => [])
  }

  lemma {:induction false} LeavesSeenConcat(a: seq<Event>, b: seq<Event>)
    ensures LeavesSeen(a + b) == LeavesSeen(a) + LeavesSeen(b)
    decreases b
  {
    if b == [] {
      assert a + b == a;
    } else {
      var b' := b[..|b| - 1];
      assert (a + b)[..|a + b| - 1] == a + b';
      LeavesSeenConcat(a, b');
    }
  }

  lemma {:induction false} NoLeavesSeen(a: seq<Event>)
    requires forall i :: 0 <= i < |a| ==> !a[i].ReceivedLeaf?
    ensures LeavesSeen(a) == []
  {
    if a != [] {
      NoLeavesSeen(a[..|a| - 1]);
    }
  }

  lemma AccessShowsOneLeaf(cfg: Config, requestId: nat, leaf: nat)
    requires ValidLeaf(cfg.levels, leaf)
    ensures LeavesSeen(AccessTrace(cfg, requestId, leaf)) == [leaf]
  {
    var trace := AccessTrace(cfg, requestId, leaf);
    var head := [ReceivedRequest(requestId), ReceivedLeaf(leaf)];
    var tail := trace[2..];
    assert trace == head + tail;
    assert head[..1] == [ReceivedRequest(requestId)];
    LeavesSeenConcat(head, tail);
    assert LeavesSeen(head[..1]) == [] by { NoLeavesSeen(head[..1]); }
    NoLeavesSeen(tail);
  }

  /** The first connection shows none. */
  lemma SetupShowsNoLeaf(cfg: Config)
    ensures LeavesSeen(SetupTrace(cfg)) == []
  {
    FillShowsNoLeaf(cfg, Pow2(cfg.levels) - 1);
    NoLeavesSeen(SetupTrace(cfg));
  }

  lemma {:induction false} FillShowsNoLeaf(cfg: Config, n: nat)
    ensures forall i :: 0 <= i < |FillTrace(cfg, n)| ==> !FillTrace(cfg, n)[i].ReceivedLeaf?
  {
    if n > 0 {
      FillShowsNoLeaf(cfg, n - 1);
    }
  }
}
