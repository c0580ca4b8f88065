/** What the key map, the position map, the stash and the server's tree together stand for: a plain
    map from keys to values. */
module Refinement {
  import opened Bytes
  import opened Slots
  import opened Paths
  import opened Replacement
  import opened Tree

  ghost predicate Injective<K(!new)>(keys: map<K, nat>) {
    forall k, k' :: k in keys && k' in keys && keys[k] == keys[k'] ==> k == k'
  }

  /** The key map is a bijection from the keys of `contents` to the mapped ids, none of which is 0. */
  ghost predicate Keyed(positions: map<nat, nat>, keys: map<Key, nat>) {
    && Injective(keys)
    && (forall k :: k in keys ==> keys[k] in positions)
    && (forall id :: id in positions ==> id != 0 && id in keys.Values)
  }

  /** The world stands for `contents`: it satisfies the main invariant, and every key's id is stored
      with the key's value. */
  ghost predicate Represents(w: World, keys: map<Key, nat>, contents: map<Key, Data>) {
    && w.Consistent()
    && Keyed(w.positions, keys)
    && AllStored(w, keys, contents)
  }

  ghost predicate AllStored(w: World, keys: map<Key, nat>, contents: map<Key, Data>) {
    && contents.Keys == keys.Keys
    && (forall k :: k in keys ==> w.Stored(keys[k], contents[k]))
  }

  lemma RepresentsFacts(w: World, keys: map<Key, nat>, contents: map<Key, Data>)
    requires Represents(w, keys, contents)
    ensures w.Consistent() && Keyed(w.positions, keys) && contents.Keys == keys.Keys
    ensures forall k :: k in keys ==> keys[k] in w.positions && keys[k] != 0 && w.Stored(keys[k], contents[k])
  {
  }

  /** With the bijection the main invariant is complete: every mapped id has a copy. Every stored
      pair belongs to a key. */
  lemma StoredIsContents(w: World, keys: map<Key, nat>, contents: map<Key, Data>, id: nat, data: Data)
    requires Represents(w, keys, contents)
    ensures w.Stored(id, data) <==> exists k :: k in keys && keys[k] == id && contents[k] == data
  {
    if w.Stored(id, data) {
      assert id in w.positions;
      var k :| k in keys && keys[k] == id;
      StoredOnce(w, id, data, contents[k]);
    }
  }

  /** An id has one value. */
  lemma StoredOnce(w: World, id: nat, d: Data, d': Data)
    requires w.Consistent() && w.Stored(id, d) && w.Stored(id, d')
    ensures d == d'
  {
    if id !in w.stash {
      var n: nat, o: nat :| InTree(w.tree, n, o, id, d);
      var n': nat, o': nat :| InTree(w.tree, n', o', id, d');
    }
  }

  lemma WriteRepresents(w: World, keys: map<Key, nat>, contents: map<Key, Data>, k: Key, value: Data, w': World)
    requires Represents(w, keys, contents) && k in keys
    requires w'.Placed() && w'.positions.Keys == w.positions.Keys
    requires StoredUpdated(Write, keys[k], value, w, w')
    ensures AllStored(w', keys, contents[k := value])
    ensures Represents(w', keys, contents[k := value]) <==> OneCopy(w'.tree, w'.stash)
  {
  }

  lemma ReadRepresents(w: World, keys: map<Key, nat>, contents: map<Key, Data>, k: Key, value: Data, w': World)
    requires Represents(w, keys, contents) && k in keys
    requires w'.Placed() && w'.positions.Keys == w.positions.Keys
    requires StoredUpdated(Read, keys[k], value, w, w')
    ensures AllStored(w', keys, contents)
    ensures Represents(w', keys, contents) <==> OneCopy(w'.tree, w'.stash)
  {
  }

  lemma ClearRepresents(w: World, keys: map<Key, nat>, contents: map<Key, Data>, k: Key, w': World)
    requires Represents(w, keys, contents) && k in keys
    requires w'.Placed() && w'.positions.Keys == w.positions.Keys
    requires StoredUpdated(Clear, keys[k], [], w, w')
    ensures var w'' := w'.(positions := w'.positions - {keys[k]});
            AllStored(w'', keys - {k}, contents - {k}) &&
            (Represents(w'', keys - {k}, contents - {k}) <==> OneCopy(w'.tree, w'.stash))
  {
    var w'' := w'.(positions := w'.positions - {keys[k]});
    ClearPlaced(w, w', keys[k]);
    ClearKeyed(w.positions, keys, k, w''.positions);
    forall k' | k' in keys - {k}
      ensures w''.Stored(keys[k'], contents[k'])
    {
      assert w.Stored(keys[k'], contents[k']);
      StoredIgnoresPositions(w', w''.positions, keys[k'], contents[k']);
    }
  }

  /** Once nothing is stored under an id, erasing it disturbs nothing. */
  lemma ClearPlaced(w: World, w': World, id: nat)
    requires w'.Placed() && StoredUpdated(Clear, id, [], w, w')
    ensures w'.(positions := w'.positions - {id}).Placed()
  {
    forall n: nat, o: nat, i, d | InTree(w'.tree, n, o, i, d)
      ensures i != id
    {
      assert w'.Stored(i, d);
    }
    assert id in w'.stash ==> w'.Stored(id, w'.stash[id]);
  }

  lemma ClearKeyed(positions: map<nat, nat>, keys: map<Key, nat>, k: Key, positions': map<nat, nat>)
    requires Keyed(positions, keys) && k in keys && positions'.Keys == positions.Keys - {keys[k]}
    ensures Keyed(positions', keys - {k})
  {
    forall i | i in positions'
      ensures i in (keys - {k}).Values
    {
      var k' :| k' in keys && keys[k'] == i;
      assert k' in keys - {k} && (keys - {k})[k'] == i;
    }
  }

  /** Mapping an unused id, before its first block exists, disturbs nothing. */
  lemma MapNewId(w: World, id: nat, leaf: nat)
    requires w.Consistent() && id !in w.positions && ValidLeaf(w.L, leaf)
    ensures w.(positions := w.positions[id := leaf]).Consistent()
    ensures forall d :: !w.Stored(id, d)
  {
  }

  lemma InsertRepresents(w: World, keys: map<Key, nat>, contents: map<Key, Data>, k: Key, id: nat, leaf: nat,
      value: Data, w': World)
    requires Represents(w, keys, contents) && k !in keys && id !in w.positions && id != 0
    requires w'.Placed() && w'.positions.Keys == w.positions.Keys + {id}
    requires StoredUpdated(Write, id, value, w.(positions := w.positions[id := leaf]), w')
    ensures AllStored(w', keys[k := id], contents[k := value])
    ensures Represents(w', keys[k := id], contents[k := value]) <==> OneCopy(w'.tree, w'.stash)
  {
    InsertKeyed(w.positions, keys, k, id, w'.positions);
    forall k' | k' in keys
      ensures w'.Stored(keys[k'], contents[k'])
    {
      InsertKeepsStored(w, keys[k'], contents[k'], id, leaf, value, w');
    }
    assert w'.Stored(id, value);
    InsertAllStored(w', keys, contents, k, id, value);
  }

  lemma InsertAllStored(w: World, keys: map<Key, nat>, contents: map<Key, Data>, k: Key, id: nat, value: Data)
    requires AllStored(w, keys, contents) && w.Stored(id, value)
    ensures AllStored(w, keys[k := id], contents[k := value])
  {
  }

  lemma InsertKeepsStored(w: World, i: nat, data: Data, id: nat, leaf: nat, value: Data, w': World)
    requires w.Stored(i, data) && i != id
    requires StoredUpdated(Write, id, value, w.(positions := w.positions[id := leaf]), w')
    ensures w'.Stored(i, data) && w'.Stored(id, value)
  {
    StoredIgnoresPositions(w, w.positions[id := leaf], i, data);
  }

  lemma StoredIgnoresPositions(w: World, positions: map<nat, nat>, id: nat, data: Data)
    ensures w.(positions := positions).Stored(id, data) <==> w.Stored(id, data)
  {
  }

  lemma InsertKeyed(positions: map<nat, nat>, keys: map<Key, nat>, k: Key, id: nat, positions': map<nat, nat>)
    requires Keyed(positions, keys) && k !in keys && id !in positions && id != 0
    requires positions'.Keys == positions.Keys + {id}
    ensures Keyed(positions', keys[k := id])
  {
    var keys' := keys[k := id];
    forall i | i in positions'
      ensures i != 0 && i in keys'.Values
    {
      if i == id {
        assert keys'[k] == id;
      } else {
        var k' :| k' in keys && keys[k'] == i;
        assert keys'[k'] == i;
      }
    }
  }

  /** As many ids are mapped as there are keys. */
  lemma {:induction false} InjectiveSize<K(!new)>(m: map<K, nat>)
    requires Injective(m)
    ensures |m.Values| == |m.Keys|
  {
    if m.Keys != {} {
      var k :| k in m.Keys;
      var rest := m - {k};
      InjectiveSize(rest);
      forall id
        ensures id in m.Values <==> id in rest.Values + {m[k]}
      {
        if id in m.Values {
          var k' :| k' in m && m[k'] == id;
          assert k' != k ==> k' in rest && rest[k'] == id;
        }
        if id in rest.Values {
          var k' :| k' in rest && rest[k'] == id;
          assert k' in m;
        }
        assert m[k] in m.Values;
      }
      assert m.Values == rest.Values + {m[k]};
      assert m.Keys == rest.Keys + {k};
    }
  }

  lemma KeyedSize(positions: map<nat, nat>, keys: map<Key, nat>)
    requires Keyed(positions, keys)
    ensures |keys| == |positions|
  {
    InjectiveSize(keys);
    assert keys.Values == positions.Keys;
    assert |keys.Keys| == |keys|;
  }

  ghost function Occupied(t: Buckets<Slot>): set<(nat, nat)> {
    set n: nat, o: nat | 1 <= n < |t| && o < |t[n]| && t[n][o].Full? :: (n, o)
  }

  /** Nothing is lost and nothing is kept twice: stash entries and occupied slots of the tree
      together are as many as the keys. */
  lemma Conservation(w: World, keys: map<Key, nat>, contents: map<Key, Data>)
    requires Represents(w, keys, contents)
    ensures |w.stash| + |Occupied(w.tree)| == |w.positions| == |contents|
  {
    var place := map p | p in Occupied(w.tree) :: w.tree[p.0][p.1].id;
    PlacesDiffer(w, place);
    InjectiveSize(place);
    PlacedIds(w, keys, contents, place);
    assert |w.positions.Keys| == |w.stash.Keys| + |place.Values|;
    KeyedSize(w.positions, keys);
    assert |contents| == |contents.Keys| && |keys| == |keys.Keys|;
  }

  lemma PlacesDiffer(w: World, place: map<(nat, nat), nat>)
    requires OneCopy(w.tree, w.stash)
    requires place.Keys == Occupied(w.tree) && forall p :: p in place ==> place[p] == w.tree[p.0][p.1].id
    ensures Injective(place)
  {
    forall p, p' | p in place && p' in place && place[p] == place[p']
      ensures p == p'
    {
      assert InTree(w.tree, p.0, p.1, place[p], w.tree[p.0][p.1].data);
      assert InTree(w.tree, p'.0, p'.1, place[p'], w.tree[p'.0][p'.1].data);
    }
  }

  lemma PlacedIds(w: World, keys: map<Key, nat>, contents: map<Key, Data>, place: map<(nat, nat), nat>)
    requires Represents(w, keys, contents)
    requires place.Keys == Occupied(w.tree) && forall p :: p in place ==> place[p] == w.tree[p.0][p.1].id
    ensures w.positions.Keys == w.stash.Keys + place.Values && w.stash.Keys !! place.Values
  {
    forall id | id in w.positions
      ensures id in w.stash || id in place.Values
    {
      var k :| k in keys && keys[k] == id;
      if id !in w.stash {
        var n: nat, o: nat :| InTree(w.tree, n, o, id, contents[k]);
        assert (n, o) in place && place[(n, o)] == id;
      }
    }
    forall id | id in place.Values
      ensures id in w.positions && id !in w.stash
    {
      var p :| p in place && place[p] == id;
      assert InTree(w.tree, p.0, p.1, id, w.tree[p.0][p.1].data);
    }
  }

  /** A tree of free slots with nothing mapped stands for the empty map. */
  lemma EmptyRepresents(w: World)
    requires w.B >= 1 && Shaped(w.L, w.B, w.tree) && w.stash == map[] && w.positions == map[]
    requires forall n, o :: 1 <= n < |w.tree| && 0 <= o < |w.tree[n]| ==> w.tree[n][o] == Free
    ensures Represents(w, map[], map[])
  {
    forall n: nat, o: nat, id, data
      ensures !InTree(w.tree, n, o, id, data)
    {
    }
  }
}
