/** The state file: `store_state` (src/single_client.cpp:627-656) and the loading part of `initialize`
    (lines 70-99). Counts and key lengths are written as 4-byte integers. */
module StateFile {
  import opened Arithmetic
  import opened Wrappers
  import opened Bytes
  import opened Slots

  datatype State = State(keys: map<Key, nat>, positions: map<nat, nat>, stash: map<nat, Data>)

  // ----- Single entries -----

  /** As many bytes of the key are written as its length, cut to 32 bits, says. */
  function KeyEntry(key: Key, id: nat, w: nat): seq<byte> {
    ToLE(|key|, 4) + (key[..KeyLength(key)] + ToLE(id, w))
  }

  function KeyLength(key: Key): (n: nat)
    ensures n <= |key| && (|key| < Space(4) ==> n == |key|)
  {
    WrapKeeps(|key|, Space(4));
    Wrap(|key|, Space(4))
  }

  function PositionEntry(id: nat, leaf: nat, w: nat): seq<byte> {
    ToLE(id, w) + ToLE(leaf, w)
  }

  function StashEntry(id: nat, data: Data, w: nat): seq<byte> {
    ToLE(id, w) + data
  }

  /** The next `n` bytes and what follows, unless the file ends before. */
  function Take(f: seq<byte>, n: nat): Option<(seq<byte>, seq<byte>)> {
    if |f| < n then None else Some((f[..n], f[n..]))
  }

  function TakeKey(f: seq<byte>, w: nat): Option<(Key, nat, seq<byte>)> {
    match Take(f, 4)
    case None => None
    case Some((size, f1)) =>
      match Take(f1, OfLE(size))
      case None => None
      case Some((key, f2)) =>
        match Take(f2, w)
        case None => None
        case Some((id, f3)) => Some((key, OfLE(id), f3))
  }

  function TakePosition(f: seq<byte>, w: nat): Option<(nat, nat, seq<byte>)> {
    match Take(f, w)
    case None => None
    case Some((id, f1)) =>
      match Take(f1, w)
      case None => None
      case Some((leaf, f2)) => Some((OfLE(id), OfLE(leaf), f2))
  }

  function TakeStash(f: seq<byte>, w: nat, dataBytes: nat): Option<(nat, Data, seq<byte>)> {
    match Take(f, w)
    case None => None
    case Some((id, f1)) =>
      match Take(f1, dataBytes)
      case None => None
      case Some((data, f2)) => Some((OfLE(id), data, f2))
  }

  lemma TakeFirst(s: seq<byte>, tail: seq<byte>)
    ensures Take(s + tail, |s|) == Some((s, tail))
  {
  }

  lemma TakeNumber(n: nat, w: nat, tail: seq<byte>)
    requires n < Space(w)
    ensures Take(ToLE(n, w) + tail, w) == Some((ToLE(n, w), tail)) && OfLE(ToLE(n, w)) == n
  {
    OfToLE(n, w);
    TakeFirst(ToLE(n, w), tail);
  }

  lemma Regroup(a: seq<byte>, b: seq<byte>, c: seq<byte>)
    ensures (a + b) + c == a + (b + c)
  {
  }

  lemma TakeKeyEntry(key: Key, id: nat, w: nat, tail: seq<byte>)
    requires |key| < Space(4) && id < Space(w)
    ensures TakeKey(KeyEntry(key, id, w) + tail, w) == Some((key, id, tail))
  {
    hide ToLE, OfLE, Space, Take, KeyLength;
    var f2 := ToLE(id, w) + tail;
    assert key[..KeyLength(key)] == key;
    Regroup(ToLE(|key|, 4), key + ToLE(id, w), tail);
    Regroup(key, ToLE(id, w), tail);
    TakeNumber(|key|, 4, key + f2);
    TakeFirst(key, f2);
    TakeNumber(id, w, tail);
  }

  lemma TakePositionEntry(id: nat, leaf: nat, w: nat, tail: seq<byte>)
    requires id < Space(w) && leaf < Space(w)
    ensures TakePosition(PositionEntry(id, leaf, w) + tail, w) == Some((id, leaf, tail))
  {
    hide ToLE, OfLE, Space, Take;
    Regroup(ToLE(id, w), ToLE(leaf, w), tail);
    TakeNumber(id, w, ToLE(leaf, w) + tail);
    TakeNumber(leaf, w, tail);
  }

  lemma TakeStashEntry(id: nat, data: Data, w: nat, tail: seq<byte>)
    requires id < Space(w)
    ensures TakeStash(StashEntry(id, data, w) + tail, w, |data|) == Some((id, data, tail))
  {
    hide ToLE, OfLE, Space, Take;
    Regroup(ToLE(id, w), data, tail);
    TakeNumber(id, w, data + tail);
    TakeFirst(data, tail);
  }

  // ----- The three sections, written in some enumeration order and read back into a map -----

  function KeyBytes(m: map<Key, nat>, order: seq<Key>, w: nat): seq<byte>
    requires forall i :: 0 <= i < |order| ==> order[i] in m
  {
    if order == [] then [] else KeyEntry(order[0], m[order[0]], w) + KeyBytes(m, order[1..], w)
  }

  function PositionBytes(m: map<nat, nat>, order: seq<nat>, w: nat): seq<byte>
    requires forall i :: 0 <= i < |order| ==> order[i] in m
  {
    if order == [] then [] else PositionEntry(order[0], m[order[0]], w) + PositionBytes(m, order[1..], w)
  }

  function StashBytes(m: map<nat, Data>, order: seq<nat>, w: nat): seq<byte>
    requires forall i :: 0 <= i < |order| ==> order[i] in m
  {
    if order == [] then [] else StashEntry(order[0], m[order[0]], w) + StashBytes(m, order[1..], w)
  }

  function LoadKeys(f: seq<byte>, n: nat, w: nat, acc: map<Key, nat>): Option<(map<Key, nat>, seq<byte>)>
    decreases n
  {
    if n == 0 then Some((acc, f))
    else match TakeKey(f, w)
      case None => None
      case Some((key, id, rest)) => LoadKeys(rest, n - 1, w, acc[key := id])
  }

  function LoadPositions(f: seq<byte>, n: nat, w: nat, acc: map<nat, nat>): Option<(map<nat, nat>, seq<byte>)>
    decreases n
  {
    if n == 0 then Some((acc, f))
    else match TakePosition(f, w)
      case None => None
      case Some((id, leaf, rest)) => LoadPositions(rest, n - 1, w, acc[id := leaf])
  }

  function LoadStash(f: seq<byte>, n: nat, w: nat, dataBytes: nat, acc: map<nat, Data>): Option<(map<nat, Data>,
      seq<byte>)>
    decreases n
  {
    if n == 0 then Some((acc, f))
    else match TakeStash(f, w, dataBytes)
      case None => None
      case Some((id, data, rest)) => LoadStash(rest, n - 1, w, dataBytes, acc[id := data])
  }

  /** `acc` with the entries of `m` for the listed keys. */
  function Extend<K, V>(acc: map<K, V>, m: map<K, V>, order: seq<K>): map<K, V>
    requires forall i :: 0 <= i < |order| ==> order[i] in m
    decreases order
  {
    if order == [] then acc else Extend(acc[order[0] := m[order[0]]], m, order[1..])
  }

  lemma {:induction false} ExtendAll<K, V>(acc: map<K, V>, m: map<K, V>, order: seq<K>)
    requires forall i :: 0 <= i < |order| ==> order[i] in m
    ensures Extend(acc, m, order).Keys == acc.Keys + (set k | k in order)
    ensures forall k :: k in Extend(acc, m, order) ==>
              Extend(acc, m, order)[k] == if k in order then m[k] else acc[k]
    decreases order
  {
    if order != [] {
      ExtendAll(acc[order[0] := m[order[0]]], m, order[1..]);
    }
  }

  /** In whatever order the entries come, the map is restored. */
  lemma ExtendEnumerated<K, V>(m: map<K, V>, order: seq<K>)
    requires Enumerates(order, m.Keys)
    ensures Extend(map[], m, order) == m
  {
    ExtendAll(map[], m, order);
  }

  lemma {:induction false} KeysRoundTrip(m: map<Key, nat>, order: seq<Key>, w: nat, acc: map<Key, nat>, tail: seq<byte>)
    requires forall i :: 0 <= i < |order| ==> order[i] in m
    requires forall k :: k in m ==> m[k] < Space(w) && |k| < Space(4)
    ensures LoadKeys(KeyBytes(m, order, w) + tail, |order|, w, acc) == Some((Extend(acc, m, order), tail))
    decreases order
  {
    if order == [] {
      assert KeyBytes(m, order, w) + tail == tail;
    } else {
      var k := order[0];
      var rest := KeyBytes(m, order[1..], w) + tail;
      assert KeyBytes(m, order, w) + tail == KeyEntry(k, m[k], w) + rest;
      TakeKeyEntry(k, m[k], w, rest);
      KeysRoundTrip(m, order[1..], w, acc[k := m[k]], tail);
    }
  }

  lemma {:induction false} PositionsRoundTrip(m: map<nat, nat>, order: seq<nat>, w: nat, acc: map<nat, nat>,
      tail: seq<byte>)
    requires forall i :: 0 <= i < |order| ==> order[i] in m
    requires forall id :: id in m ==> id < Space(w) && m[id] < Space(w)
    ensures LoadPositions(PositionBytes(m, order, w) + tail, |order|, w, acc) == Some((Extend(acc, m, order), tail))
    decreases order
  {
    if order == [] {
      assert PositionBytes(m, order, w) + tail == tail;
    } else {
      var id := order[0];
      var rest := PositionBytes(m, order[1..], w) + tail;
      assert PositionBytes(m, order, w) + tail == PositionEntry(id, m[id], w) + rest;
      TakePositionEntry(id, m[id], w, rest);
      PositionsRoundTrip(m, order[1..], w, acc[id := m[id]], tail);
    }
  }

  lemma {:induction false} StashRoundTrip(m: map<nat, Data>, order: seq<nat>, w: nat, dataBytes: nat, acc: map<nat,
      Data>, tail: seq<byte>)
    requires forall i :: 0 <= i < |order| ==> order[i] in m
    requires forall id :: id in m ==> id < Space(w) && |m[id]| == dataBytes
    ensures LoadStash(StashBytes(m, order, w) + tail, |order|, w, dataBytes, acc) == Some((Extend(acc, m, order), tail))
    decreases order
  {
    if order == [] {
      assert StashBytes(m, order, w) + tail == tail;
    } else {
      var id := order[0];
      var rest := StashBytes(m, order[1..], w) + tail;
      assert StashBytes(m, order, w) + tail == StashEntry(id, m[id], w) + rest;
      TakeStashEntry(id, m[id], w, rest);
      StashRoundTrip(m, order[1..], w, dataBytes, acc[id := m[id]], tail);
    }
  }

  // ----- The whole file -----

  /** The enumeration orders of the three maps while the file is written. */
  datatype Orders = Orders(keys: seq<Key>, positions: seq<nat>, stash: seq<nat>)

  ghost predicate Enumerate(o: Orders, s: State) {
    Enumerates(o.keys, s.keys.Keys) && Enumerates(o.positions, s.positions.Keys) && Enumerates(o.stash, s.stash.Keys)
  }

  /** A count and what follows it. */
  function Section(n: nat, entries: seq<byte>): seq<byte> {
    ToLE(n, 4) + entries
  }

  ghost function FileBytes(s: State, o: Orders, w: nat): seq<byte>
    requires Enumerate(o, s)
  {
    Section(|s.keys|, KeyBytes(s.keys, o.keys, w)) +
    Section(|s.positions|, PositionBytes(s.positions, o.positions, w)) +
    Section(|s.stash|, StashBytes(s.stash, o.stash, w))
  }

  /** The file of one key with id 5, one position and one stash entry, byte by byte. */
  lemma SmallFile(s: State, o: Orders, key: Key)
    requires key == [97, 98, 99]
    requires s == State(map[key := 5], map[5 := 3], map[6 := [7, 8]])
    requires o == Orders([key], [5], [6])
    ensures Enumerate(o, s)
    ensures FileBytes(s, o, 1) ==
            ([1, 0, 0, 0] + [3, 0, 0, 0, 97, 98, 99, 5]) + ([1, 0, 0, 0] + [5, 3]) + ([1, 0, 0, 0] + [6, 7, 8])
  {
    hide ToLE, KeyBytes, PositionBytes, StashBytes, Enumerates;
    var w := 1;
    ToLESmall(1, w);
    SmallSections(s.keys, s.positions, s.stash, key, w);
    OneEntry(o.keys, s.keys.Keys, key);
    OneEntry(o.positions, s.positions.Keys, 5);
    OneEntry(o.stash, s.stash.Keys, 6);
  }

  lemma OneEntry<T>(order: seq<T>, keys: set<T>, k: T)
    requires order == [k] && keys == {k}
    ensures Enumerates(order, keys)
  {
    assert order[0] == k;
  }

  lemma SmallSections(keys: map<Key, nat>, positions: map<nat, nat>, stash: map<nat, Data>, key: Key, w: nat)
    requires key == [97, 98, 99] && w == 1
    requires keys == map[key := 5] && positions == map[5 := 3] && stash == map[6 := [7, 8]]
    ensures KeyBytes(keys, [key], w) == [3, 0, 0, 0, 97, 98, 99, 5]
    ensures PositionBytes(positions, [5], w) == [5, 3]
    ensures StashBytes(stash, [6], w) == [6, 7, 8]
  {
    hide ToLE, KeyLength;
    ToLESmall(3, w);
    ToLESmall(5, w);
    ToLESmall(6, w);
    assert KeyLength(key) == 3 by {
      SpaceBig();
    }
    assert KeyBytes(keys, [], w) == [] && PositionBytes(positions, [], w) == [] && StashBytes(stash, [], w) == [];
  }

  lemma SpaceBig()
    ensures Space(4) > 255
  {
    assert Space(1) == 256;
    assert Space(2) > 255 && Space(3) > 255;
  }

  lemma ToLESmall(n: nat, w: nat)
    requires n < 256 && w == 1
    ensures ToLE(n, 4) == [n, 0, 0, 0] && ToLE(n, w) == [n]
  {
    assert ToLE(0, 1) == [0];
    assert ToLE(0, 2) == [0, 0];
    assert ToLE(0, 3) == [0, 0, 0];
  }

  function LoadKeySection(f: seq<byte>, w: nat): Option<(map<Key, nat>, seq<byte>)> {
    match Take(f, 4)
    case None => None
    case Some((size, rest)) => LoadKeys(rest, OfLE(size), w, map[])
  }

  function LoadPositionSection(f: seq<byte>, w: nat): Option<(map<nat, nat>, seq<byte>)> {
    match Take(f, 4)
    case None => None
    case Some((size, rest)) => LoadPositions(rest, OfLE(size), w, map[])
  }

  function LoadStashSection(f: seq<byte>, w: nat, dataBytes: nat): Option<(map<nat, Data>, seq<byte>)> {
    match Take(f, 4)
    case None => None
    case Some((size, rest)) => LoadStash(rest, OfLE(size), w, dataBytes, map[])
  }

  /** What a new client reads back; None when the file is shorter than its counts say. */
  function Load(f: seq<byte>, w: nat, dataBytes: nat): Option<State> {
    match LoadKeySection(f, w)
    case None => None
    case Some((keys, f1)) =>
      match LoadPositionSection(f1, w)
      case None => None
      case Some((positions, f2)) =>
        match LoadStashSection(f2, w, dataBytes)
        case None => None
        case Some((stash, _)) => Some(State(keys, positions, stash))
  }

  /** Ids and leaves have their width and stash entries their size, as their types demand. */
  ghost predicate Typed(s: State, w: nat, dataBytes: nat) {
    && (forall k :: k in s.keys ==> s.keys[k] < Space(w))
    && (forall id :: id in s.positions ==> id < Space(w) && s.positions[id] < Space(w))
    && (forall id :: id in s.stash ==> id < Space(w) && |s.stash[id]| == dataBytes)
  }

  /** All counts and key lengths fit the 4 bytes they are written in. */
  ghost predicate CountsFit(s: State) {
    && |s.keys| < Space(4) && |s.positions| < Space(4) && |s.stash| < Space(4)
    && forall k :: k in s.keys ==> |k| < Space(4)
  }

  lemma {:induction false} EnumerationSize<T>(order: seq<T>, keys: set<T>)
    requires Enumerates(order, keys)
    ensures |order| == |keys|
  {
    if order == [] {
      assert keys == {};
    } else {
      var n := |order| - 1;
      assert order[n] in keys;
      forall k | k in keys - {order[n]}
        ensures k in order[..n]
      {
        var i :| 0 <= i < |order| && order[i] == k;
        assert order[..n][i] == k;
      }
      EnumerationSize(order[..n], keys - {order[n]});
    }
  }

  lemma KeySectionRoundTrip(m: map<Key, nat>, order: seq<Key>, w: nat, tail: seq<byte>)
    requires Enumerates(order, m.Keys) && |m| < Space(4)
    requires forall k :: k in m ==> m[k] < Space(w) && |k| < Space(4)
    ensures LoadKeySection(Section(|m|, KeyBytes(m, order, w)) + tail, w) == Some((m, tail))
  {
    hide Extend, Take, ToLE, OfLE, Space, KeyBytes, LoadKeys;
    EnumerationSize(order, m.Keys);
    assert |m.Keys| == |m|;
    assert Section(|m|, KeyBytes(m, order, w)) + tail == ToLE(|m|, 4) + (KeyBytes(m, order, w) + tail);
    TakeNumber(|m|, 4, KeyBytes(m, order, w) + tail);
    KeysRoundTrip(m, order, w, map[], tail);
    ExtendEnumerated(m, order);
  }

  lemma PositionSectionRoundTrip(m: map<nat, nat>, order: seq<nat>, w: nat, tail: seq<byte>)
    requires Enumerates(order, m.Keys) && |m| < Space(4)
    requires forall id :: id in m ==> id < Space(w) && m[id] < Space(w)
    ensures LoadPositionSection(Section(|m|, PositionBytes(m, order, w)) + tail, w) == Some((m, tail))
  {
    hide Extend, Take, ToLE, OfLE, Space, PositionBytes, LoadPositions;
    EnumerationSize(order, m.Keys);
    assert |m.Keys| == |m|;
    assert Section(|m|, PositionBytes(m, order, w)) + tail == ToLE(|m|, 4) + (PositionBytes(m, order, w) + tail);
    TakeNumber(|m|, 4, PositionBytes(m, order, w) + tail);
    PositionsRoundTrip(m, order, w, map[], tail);
    ExtendEnumerated(m, order);
  }

  lemma StashSectionRoundTrip(m: map<nat, Data>, order: seq<nat>, w: nat, dataBytes: nat, tail: seq<byte>)
    requires Enumerates(order, m.Keys) && |m| < Space(4)
    requires forall id :: id in m ==> id < Space(w) && |m[id]| == dataBytes
    ensures LoadStashSection(Section(|m|, StashBytes(m, order, w)) + tail, w, dataBytes) == Some((m, tail))
  {
    hide Extend, Take, ToLE, OfLE, Space, StashBytes, LoadStash;
    EnumerationSize(order, m.Keys);
    assert |m.Keys| == |m|;
    assert Section(|m|, StashBytes(m, order, w)) + tail == ToLE(|m|, 4) + (StashBytes(m, order, w) + tail);
    TakeNumber(|m|, 4, StashBytes(m, order, w) + tail);
    StashRoundTrip(m, order, w, dataBytes, map[], tail);
    ExtendEnumerated(m, order);
  }

  lemma LoadStored(s: State, o: Orders, w: nat, dataBytes: nat)
    requires Enumerate(o, s) && Typed(s, w, dataBytes) && CountsFit(s)
    ensures Load(FileBytes(s, o, w), w, dataBytes) == Some(s)
  {
    var stash := Section(|s.stash|, StashBytes(s.stash, o.stash, w));
    var positions := Section(|s.positions|, PositionBytes(s.positions, o.positions, w));
    var keys := Section(|s.keys|, KeyBytes(s.keys, o.keys, w));
    KeySectionRoundTrip(s.keys, o.keys, w, positions + stash);
    PositionSectionRoundTrip(s.positions, o.positions, w, stash);
    StashSectionRoundTrip(s.stash, o.stash, w, dataBytes, []);
    LoadParts(keys, positions, stash, s, w, dataBytes);
  }

  lemma LoadParts(keys: seq<byte>, positions: seq<byte>, stash: seq<byte>, s: State, w: nat, dataBytes: nat)
    requires LoadKeySection(keys + (positions + stash), w) == Some((s.keys, positions + stash))
    requires LoadPositionSection(positions + stash, w) == Some((s.positions, stash))
    requires LoadStashSection(stash + [], w, dataBytes) == Some((s.stash, []))
    ensures Load(keys + positions + stash, w, dataBytes) == Some(s)
  {
    hide LoadKeySection, LoadPositionSection, LoadStashSection;
    Regroup(keys, positions, stash);
    assert stash + [] == stash;
  }

  // ----- What can be loaded at all -----

  lemma TakenKeyFits(f: seq<byte>, w: nat)
    requires TakeKey(f, w).Some?
    ensures |TakeKey(f, w).value.0| < Space(4)
  {
    hide Space, OfLE;
  }

  lemma MapGrows<K, V>(m: map<K, V>, k: K, v: V)
    ensures |m[k := v]| <= |m| + 1
  {
    if k in m {
      assert m[k := v].Keys == m.Keys;
      assert |m[k := v]| == |m[k := v].Keys| && |m| == |m.Keys|;
    }
  }

  lemma {:induction false} LoadKeysFits(f: seq<byte>, n: nat, w: nat, acc: map<Key, nat>)
    requires LoadKeys(f, n, w, acc).Some? && forall k :: k in acc ==> |k| < Space(4)
    ensures var m := LoadKeys(f, n, w, acc).value.0;
            |m| <= |acc| + n && forall k :: k in m ==> |k| < Space(4)
    decreases n
  {
    hide TakeKey, Space;
    if n > 0 {
      var (key, id, rest) := TakeKey(f, w).value;
      TakenKeyFits(f, w);
      MapGrows(acc, key, id);
      LoadKeysFits(rest, n - 1, w, acc[key := id]);
    }
  }

  lemma {:induction false} LoadPositionsFits(f: seq<byte>, n: nat, w: nat, acc: map<nat, nat>)
    requires LoadPositions(f, n, w, acc).Some?
    ensures |LoadPositions(f, n, w, acc).value.0| <= |acc| + n
    decreases n
  {
    hide TakePosition;
    if n > 0 {
      var (id, leaf, rest) := TakePosition(f, w).value;
      MapGrows(acc, id, leaf);
      LoadPositionsFits(rest, n - 1, w, acc[id := leaf]);
    }
  }

  lemma {:induction false} LoadStashFits(f: seq<byte>, n: nat, w: nat, dataBytes: nat, acc: map<nat, Data>)
    requires LoadStash(f, n, w, dataBytes, acc).Some?
    ensures |LoadStash(f, n, w, dataBytes, acc).value.0| <= |acc| + n
    decreases n
  {
    hide TakeStash;
    if n > 0 {
      var (id, data, rest) := TakeStash(f, w, dataBytes).value;
      MapGrows(acc, id, data);
      LoadStashFits(rest, n - 1, w, dataBytes, acc[id := data]);
    }
  }

  /** Whatever the file holds, a loaded state has counts and key lengths below 2^32. */
  lemma LoadedFits(f: seq<byte>, w: nat, dataBytes: nat)
    requires Load(f, w, dataBytes).Some?
    ensures CountsFit(Load(f, w, dataBytes).value)
  {
    var (size, rest) := Take(f, 4).value;
    LoadKeysFits(rest, OfLE(size), w, map[]);
    var (_, f1) := LoadKeySection(f, w).value;
    var (size1, rest1) := Take(f1, 4).value;
    LoadPositionsFits(rest1, OfLE(size1), w, map[]);
    var (_, f2) := LoadPositionSection(f1, w).value;
    var (size2, rest2) := Take(f2, 4).value;
    LoadStashFits(rest2, OfLE(size2), w, dataBytes, map[]);
  }

  /** The state survives the file exactly when all counts and key lengths fit 4 bytes, for every
      contents, arbitrary key bytes and every enumeration order. */
  lemma RoundTripIff(s: State, o: Orders, w: nat, dataBytes: nat)
    requires Enumerate(o, s) && Typed(s, w, dataBytes)
    ensures Load(FileBytes(s, o, w), w, dataBytes) == Some(s) <==> CountsFit(s)
  {
    if CountsFit(s) {
      LoadStored(s, o, w, dataBytes);
    }
    if Load(FileBytes(s, o, w), w, dataBytes) == Some(s) {
      LoadedFits(FileBytes(s, o, w), w, dataBytes);
    }
  }

  // ----- The loops -----

  method WriteKey(bytes: seq<byte>, key: Key, id: nat, w: nat) returns (r: seq<byte>)
    ensures r == bytes + KeyEntry(key, id, w)
  {
    hide ToLE, Space;
    WrapKeeps(|key|, Space(4));
    r := bytes + ToLE(|key|, 4);
    r := r + key[..Wrap(|key|, Space(4))];
    r := r + ToLE(id, w);
    Regroup(bytes, ToLE(|key|, 4), key[..KeyLength(key)] + ToLE(id, w));
    Regroup(bytes + ToLE(|key|, 4), key[..KeyLength(key)], ToLE(id, w));
  }

  lemma KeyBytesFrom(m: map<Key, nat>, order: seq<Key>, w: nat, i: nat)
    requires i <= |order| && forall k :: 0 <= k < |order| ==> order[k] in m
    ensures i == |order| ==> KeyBytes(m, order[i..], w) == []
    ensures i < |order| ==>
            KeyBytes(m, order[i..], w) == KeyEntry(order[i], m[order[i]], w) + KeyBytes(m, order[i + 1..], w)
  {
    hide KeyEntry;
    assert i < |order| ==> order[i..][0] == order[i] && order[i..][1..] == order[i + 1..];
  }

  method WriteKeys(m: map<Key, nat>, order: seq<Key>, w: nat) returns (bytes: seq<byte>)
    requires forall i :: 0 <= i < |order| ==> order[i] in m
    ensures bytes == KeyBytes(m, order, w)
  {
    hide KeyEntry, KeyBytes;
    KeyBytesFrom(m, order, w, |order|);
    assert order[0..] == order;
    bytes := [];
    var i := 0;
    while i < |order|
      invariant 0 <= i <= |order|
      invariant bytes + KeyBytes(m, order[i..], w) == KeyBytes(m, order, w)
    {
      KeyBytesFrom(m, order, w, i);
      Regroup(bytes, KeyEntry(order[i], m[order[i]], w), KeyBytes(m, order[i + 1..], w));
      bytes := WriteKey(bytes, order[i], m[order[i]], w);
      i := i + 1;
    }
  }

  method WritePosition(bytes: seq<byte>, id: nat, leaf: nat, w: nat) returns (r: seq<byte>)
    ensures r == bytes + PositionEntry(id, leaf, w)
  {
    hide ToLE, Space;
    r := bytes + ToLE(id, w);
    r := r + ToLE(leaf, w);
    Regroup(bytes, ToLE(id, w), ToLE(leaf, w));
  }

  lemma PositionBytesFrom(m: map<nat, nat>, order: seq<nat>, w: nat, i: nat)
    requires i <= |order| && forall k :: 0 <= k < |order| ==> order[k] in m
    ensures i == |order| ==> PositionBytes(m, order[i..], w) == []
    ensures i < |order| ==>
            PositionBytes(m, order[i..], w) ==
                PositionEntry(order[i], m[order[i]], w) + PositionBytes(m, order[i + 1..], w)
  {
    hide PositionEntry;
    assert i < |order| ==> order[i..][0] == order[i] && order[i..][1..] == order[i + 1..];
  }

  method WritePositions(m: map<nat, nat>, order: seq<nat>, w: nat) returns (bytes: seq<byte>)
    requires forall i :: 0 <= i < |order| ==> order[i] in m
    ensures bytes == PositionBytes(m, order, w)
  {
    hide PositionEntry, PositionBytes;
    PositionBytesFrom(m, order, w, |order|);
    assert order[0..] == order;
    bytes := [];
    var i := 0;
    while i < |order|
      invariant 0 <= i <= |order|
      invariant bytes + PositionBytes(m, order[i..], w) == PositionBytes(m, order, w)
    {
      PositionBytesFrom(m, order, w, i);
      Regroup(bytes, PositionEntry(order[i], m[order[i]], w), PositionBytes(m, order[i + 1..], w));
      bytes := WritePosition(bytes, order[i], m[order[i]], w);
      i := i + 1;
    }
  }

  method WriteStashEntry(bytes: seq<byte>, id: nat, data: Data, w: nat) returns (r: seq<byte>)
    ensures r == bytes + StashEntry(id, data, w)
  {
    hide ToLE, Space;
    r := bytes + ToLE(id, w);
    r := r + data;
    Regroup(bytes, ToLE(id, w), data);
  }

  lemma StashBytesFrom(m: map<nat, Data>, order: seq<nat>, w: nat, i: nat)
    requires i <= |order| && forall k :: 0 <= k < |order| ==> order[k] in m
    ensures i == |order| ==> StashBytes(m, order[i..], w) == []
    ensures i < |order| ==>
            StashBytes(m, order[i..], w) == StashEntry(order[i], m[order[i]], w) + StashBytes(m, order[i + 1..], w)
  {
    hide StashEntry;
    assert i < |order| ==> order[i..][0] == order[i] && order[i..][1..] == order[i + 1..];
  }

  method WriteStash(m: map<nat, Data>, order: seq<nat>, w: nat) returns (bytes: seq<byte>)
    requires forall i :: 0 <= i < |order| ==> order[i] in m
    ensures bytes == StashBytes(m, order, w)
  {
    hide StashEntry, StashBytes;
    StashBytesFrom(m, order, w, |order|);
    assert order[0..] == order;
    bytes := [];
    var i := 0;
    while i < |order|
      invariant 0 <= i <= |order|
      invariant bytes + StashBytes(m, order[i..], w) == StashBytes(m, order, w)
    {
      StashBytesFrom(m, order, w, i);
      Regroup(bytes, StashEntry(order[i], m[order[i]], w), StashBytes(m, order[i + 1..], w));
      bytes := WriteStashEntry(bytes, order[i], m[order[i]], w);
      i := i + 1;
    }
  }

  method StoreState(s: State, w: nat) returns (file: seq<byte>)
    ensures exists o :: Enumerate(o, s) && file == FileBytes(s, o, w)
  {
    var keys := EnumerateKeys(s.keys.Keys);
    var positions := EnumerateKeys(s.positions.Keys);
    var stash := EnumerateKeys(s.stash.Keys);
    ghost var o := Orders(keys, positions, stash);
    var keyBytes := WriteKeys(s.keys, keys, w);
    var positionBytes := WritePositions(s.positions, positions, w);
    var stashBytes := WriteStash(s.stash, stash, w);
    file := ToLE(|s.keys|, 4) + keyBytes;
    file := file + (ToLE(|s.positions|, 4) + positionBytes);
    file := file + (ToLE(|s.stash|, 4) + stashBytes);
    assert Enumerate(o, s) && file == FileBytes(s, o, w);
  }

  method ReadKey(f: seq<byte>, w: nat) returns (r: Option<(Key, nat, seq<byte>)>)
    ensures r == TakeKey(f, w)
  {
    var size := Take(f, 4);
    if size.None? {
      return None;
    }
    var key := Take(size.value.1, OfLE(size.value.0));
    if key.None? {
      return None;
    }
    var id := Take(key.value.1, w);
    r := if id.None? then None else Some((key.value.0, OfLE(id.value.0), id.value.1));
  }

  method ReadKeys(f: seq<byte>, n: nat, w: nat) returns (r: Option<(map<Key, nat>, seq<byte>)>)
    ensures r == LoadKeys(f, n, w, map[])
  {
    var m: map<Key, nat>, rest, i := map[], f, 0;
    while i < n
      invariant 0 <= i <= n
      invariant LoadKeys(f, n, w, map[]) == LoadKeys(rest, n - i, w, m)
    {
      var entry := ReadKey(rest, w);
      match entry {
        case None => return None;
        case Some((key, id, tail)) => m, rest := m[key := id], tail;
      }
      i := i + 1;
    }
    r := Some((m, rest));
  }

  method ReadPosition(f: seq<byte>, w: nat) returns (r: Option<(nat, nat, seq<byte>)>)
    ensures r == TakePosition(f, w)
  {
    var id := Take(f, w);
    if id.None? {
      return None;
    }
    var leaf := Take(id.value.1, w);
    r := if leaf.None? then None else Some((OfLE(id.value.0), OfLE(leaf.value.0), leaf.value.1));
  }

  method ReadPositions(f: seq<byte>, n: nat, w: nat) returns (r: Option<(map<nat, nat>, seq<byte>)>)
    ensures r == LoadPositions(f, n, w, map[])
  {
    var m: map<nat, nat>, rest, i := map[], f, 0;
    while i < n
      invariant 0 <= i <= n
      invariant LoadPositions(f, n, w, map[]) == LoadPositions(rest, n - i, w, m)
    {
      var entry := ReadPosition(rest, w);
      match entry {
        case None => return None;
        case Some((id, leaf, tail)) => m, rest := m[id := leaf], tail;
      }
      i := i + 1;
    }
    r := Some((m, rest));
  }

  method ReadStashEntry(f: seq<byte>, w: nat, dataBytes: nat) returns (r: Option<(nat, Data, seq<byte>)>)
    ensures r == TakeStash(f, w, dataBytes)
  {
    var id := Take(f, w);
    if id.None? {
      return None;
    }
    var data := Take(id.value.1, dataBytes);
    r := if data.None? then None else Some((OfLE(id.value.0), data.value.0, data.value.1));
  }

  method ReadStash(f: seq<byte>, n: nat, w: nat, dataBytes: nat) returns (r: Option<(map<nat, Data>, seq<byte>)>)
    ensures r == LoadStash(f, n, w, dataBytes, map[])
  {
    var m: map<nat, Data>, rest, i := map[], f, 0;
    while i < n
      invariant 0 <= i <= n
      invariant LoadStash(f, n, w, dataBytes, map[]) == LoadStash(rest, n - i, w, dataBytes, m)
    {
      var entry := ReadStashEntry(rest, w, dataBytes);
      match entry {
        case None => return None;
        case Some((id, data, tail)) => m, rest := m[id := data], tail;
      }
      i := i + 1;
    }
    r := Some((m, rest));
  }

  /** Lines 70-99 on a fresh client. */
  method LoadState(f: seq<byte>, w: nat, dataBytes: nat) returns (r: Option<State>)
    ensures r == Load(f, w, dataBytes)
  {
    r := None;
    if |f| < 4 {
      return;
    }
    var keys := ReadKeys(f[4..], OfLE(f[..4]), w);
    if keys.None? || |keys.value.1| < 4 {
      return;
    }
    var f1 := keys.value.1;
    var positions := ReadPositions(f1[4..], OfLE(f1[..4]), w);
    if positions.None? || |positions.value.1| < 4 {
      return;
    }
    var f2 := positions.value.1;
    var stash := ReadStash(f2[4..], OfLE(f2[..4]), w, dataBytes);
    if stash.Some? {
      r := Some(State(keys.value.0, positions.value.0, stash.value.0));
    }
  }
}
