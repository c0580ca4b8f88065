/** The choice of a block id for a new key (src/single_client.cpp:193-200). */
module IdAllocation {
  import opened Arithmetic

  ghost predicate IdsIn(positions: map<nat, nat>, idSpace: nat) {
    forall id :: id in positions ==> 0 < id < idSpace
  }

  /** All ids are below `idSpace`; 0 may be among them. */
  ghost predicate IdsBelow(positions: map<nat, nat>, idSpace: nat) {
    forall id :: id in positions ==> id < idSpace
  }

  /** Where the search of lines 195-198 stops: at the first number whose conversion to a block id is not
      mapped, or one after as many numbers as there are mapped ids. */
  ghost predicate Searched(positions: map<nat, nat>, idSpace: nat, i: nat) {
    && idSpace > 0 && 0 < i <= |positions| + 1
    && (forall j: nat :: 0 < j < i ==> Wrap(j, idSpace) in positions)
    && (i <= |positions| ==> Wrap(i, idSpace) !in positions)
  }

  /** The numbers 1..n. */
  function Interval(n: nat): (s: set<nat>)
    ensures |s| == n && forall i :: i in s <==> 0 < i <= n
  {
    if n == 0 then {} else Interval(n - 1) + {n}
  }

  lemma SubsetSize<T>(a: set<T>, b: set<T>)
    requires a <= b
    ensures |a| <= |b| && (|a| == |b| ==> a == b)
  {
    assert b == a + (b - a);
    assert |b| == |a| + |b - a|;
  }

  lemma IdsInBelow(positions: map<nat, nat>, idSpace: nat)
    requires IdsIn(positions, idSpace)
    ensures IdsBelow(positions, idSpace) && 0 !in positions
  {
  }

  /** Ids below `idSpace`: their number is at most `idSpace - 1`. */
  lemma AtMostIdSpace(positions: map<nat, nat>, idSpace: nat)
    requires idSpace > 0 && IdsIn(positions, idSpace)
    ensures |positions| < idSpace
    ensures |positions| == idSpace - 1 ==> positions.Keys == Interval(idSpace - 1)
  {
    SubsetSize(positions.Keys, Interval(idSpace - 1));
    assert |positions| == |positions.Keys|;
  }

  /** The search of lines 195-198, for every map. Its lookups convert the counter to a block id. */
  method FindUnused(positions: map<nat, nat>, idSpace: nat) returns (i: nat)
    requires idSpace > 0
    ensures Searched(positions, idSpace, i)
  {
    i := 1;
    while i <= |positions|
      invariant 0 < i <= |positions| + 1
      invariant forall j: nat :: 0 < j < i ==> Wrap(j, idSpace) in positions
    {
      if Wrap(i, idSpace) !in positions {
        return;
      }
      i := i + 1;
    }
  }

  lemma {:induction false} SearchFrom(positions: map<nat, nat>, idSpace: nat, i: nat) returns (r: nat)
    requires idSpace > 0 && 0 < i <= |positions| + 1
    requires forall j: nat :: 0 < j < i ==> Wrap(j, idSpace) in positions
    ensures Searched(positions, idSpace, r)
    decreases |positions| + 1 - i
  {
    if i == |positions| + 1 || Wrap(i, idSpace) !in positions {
      r := i;
    } else {
      r := SearchFrom(positions, idSpace, i + 1);
    }
  }

  /** The chosen number as a block id. It is not mapped if and only if some block id is not; it is 0, the
      mark of a free slot, if and only if 0 is the only one; and when all are mapped it is 1, which is
      another key's. */
  lemma FreshIdIff(positions: map<nat, nat>, idSpace: nat, i: nat)
    requires idSpace > 1 && IdsBelow(positions, idSpace) && Searched(positions, idSpace, i)
    ensures var id := Wrap(i, idSpace);
            && id < idSpace
            && (id !in positions <==> |positions| < idSpace)
            && (id == 0 <==> 0 !in positions && |positions| == idSpace - 1)
            && (id == 1 && id in positions <==> |positions| == idSpace)
            && (0 < id && id !in positions ==> id == i && forall j :: 0 < j < id ==> j in positions)
  {
    hide Wrap;
    WrapBelow(i, idSpace);
    SubsetSize(positions.Keys, Interval(idSpace - 1) + {0});
    assert |positions| == |positions.Keys|;
    forall j: nat | j < idSpace
      ensures Wrap(j, idSpace) == j
    {
      WrapFits(j, idSpace);
    }
    forall j: nat | 0 < j < i && j < idSpace
      ensures j in positions
    {
      assert Wrap(j, idSpace) == j;
    }
    if |positions| == idSpace {
      AllTaken(positions, idSpace, i);
    } else if i <= |positions| {
      if 0 !in positions && |positions| == idSpace - 1 {
        SubsetSize(positions.Keys, Interval(idSpace - 1));
        assert false;
      }
    } else {
      forall j: nat | 0 < j <= |positions|
        ensures j in positions
      {
        assert Wrap(j, idSpace) == j;
      }
      SubsetSize(Interval(|positions|), positions.Keys);
      if i == idSpace {
        WrapOnce(i, idSpace);
      }
    }
  }

  lemma AllTaken(positions: map<nat, nat>, idSpace: nat, i: nat)
    requires idSpace > 1 && positions.Keys == Interval(idSpace - 1) + {0} && |positions| == idSpace
    requires Searched(positions, idSpace, i)
    ensures Wrap(i, idSpace) == 1 && 1 in positions
  {
    hide Wrap;
    WrapBelow(i, idSpace);
    assert 1 in Interval(idSpace - 1);
    assert forall id: nat :: id < idSpace ==> id in positions.Keys;
    WrapOnce(idSpace + 1, idSpace);
  }

  /** For an id that the wrap does not touch, the search stops at the least positive number that is not
      mapped. */
  lemma LeastIsSearched(positions: map<nat, nat>, idSpace: nat, i: nat)
    requires 0 < i < idSpace && i !in positions && forall j :: 0 < j < i ==> j in positions
    ensures Searched(positions, idSpace, i) && Wrap(i, idSpace) == i
  {
    hide Wrap;
    forall j: nat | j < idSpace
      ensures Wrap(j, idSpace) == j
    {
      WrapFits(j, idSpace);
    }
    SubsetSize(Interval(i - 1), positions.Keys);
    assert |positions| == |positions.Keys|;
  }
}
