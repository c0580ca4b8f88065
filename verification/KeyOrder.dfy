/** The order of `std::map<std::string, ...>`: lexicographic by bytes, a proper prefix first. */
module KeyOrder {
  import opened Wrappers
  import opened Bytes

  predicate Less(a: Key, b: Key)
    decreases a
  {
    b != [] && (a == [] || a[0] < b[0] || (a[0] == b[0] && Less(a[1..], b[1..])))
  }

  /** The strings agree before `n`, where `a` ends or has the smaller byte. */
  ghost predicate SmallerAt(a: Key, b: Key, n: nat) {
    n <= |a| && n < |b| && a[..n] == b[..n] && (n == |a| || a[n] < b[n])
  }

  /** The order of the program's strings: bytes are compared as unsigned numbers from the front, and a
      proper prefix comes first. */
  lemma LessIff(a: Key, b: Key)
    ensures Less(a, b) <==> exists n: nat :: SmallerAt(a, b, n)
  {
    if Less(a, b) {
      var n := LessAt(a, b);
    }
    if n: nat :| SmallerAt(a, b, n) {
      AtLess(a, b, n);
    }
  }

  lemma {:induction false} LessAt(a: Key, b: Key) returns (n: nat)
    requires Less(a, b)
    ensures SmallerAt(a, b, n)
    decreases a
  {
    n := 0;
    if a != [] && a[0] == b[0] {
      var m := LessAt(a[1..], b[1..]);
      n := m + 1;
      assert a[..n] == [a[0]] + a[1..][..m] && b[..n] == [b[0]] + b[1..][..m];
    }
  }

  lemma {:induction false} AtLess(a: Key, b: Key, n: nat)
    requires SmallerAt(a, b, n)
    ensures Less(a, b)
    decreases n
  {
    if n > 0 {
      assert a[0] == a[..n][0] == b[..n][0] == b[0];
      assert a[1..][..n - 1] == a[..n][1..] == b[..n][1..] == b[1..][..n - 1];
      AtLess(a[1..], b[1..], n - 1);
    }
  }

  /** A proper prefix comes before its extensions. */
  lemma PrefixFirst(a: Key, x: Key)
    requires x != []
    ensures Less(a, a + x)
  {
    assert (a + x)[..|a|] == a[..|a|];
    AtLess(a, a + x, |a|);
  }

  lemma {:induction false} LessIrreflexive(a: Key)
    ensures !Less(a, a)
  {
    if a != [] {
      LessIrreflexive(a[1..]);
    }
  }

  lemma {:induction false} LessTotal(a: Key, b: Key)
    ensures Less(a, b) || a == b || Less(b, a)
    ensures !(Less(a, b) && Less(b, a)) && !Less(a, a)
    decreases a
  {
    LessIrreflexive(a);
    if a != [] && b != [] {
      LessTotal(a[1..], b[1..]);
      assert a == [a[0]] + a[1..] && b == [b[0]] + b[1..];
    }
  }

  lemma {:induction false} LessTransitive(a: Key, b: Key, c: Key)
    requires Less(a, b) && Less(b, c)
    ensures Less(a, c)
    decreases a
  {
    if a != [] && a[0] == b[0] == c[0] {
      LessTransitive(a[1..], b[1..], c[1..]);
    }
  }

  /** `k` is not beyond any key of `s`. */
  ghost predicate IsLeast(k: Key, s: set<Key>) {
    k in s && forall x :: x in s ==> x == k || Less(k, x)
  }

  lemma {:induction false} LeastExists(s: set<Key>)
    requires s != {}
    ensures exists k :: IsLeast(k, s)
    decreases s
  {
    var x :| x in s;
    var rest := s - {x};
    if rest == {} {
      assert s == {x};
      assert IsLeast(x, s);
    } else {
      LeastExists(rest);
      var y :| IsLeast(y, rest);
      LessTotal(x, y);
      var k := if Less(x, y) then x else y;
      forall z | z in s
        ensures z == k || Less(k, z)
      {
        if z in rest && z != y && k == x {
          LessTransitive(x, y, z);
        }
      }
      assert IsLeast(k, s);
    }
  }

  ghost function Least(s: set<Key>): (k: Key)
    requires s != {}
    ensures IsLeast(k, s)
  {
    LeastExists(s);
    var k :| IsLeast(k, s);
    k
  }

  lemma LeastUnique(s: set<Key>, a: Key, b: Key)
    requires IsLeast(a, s) && IsLeast(b, s)
    ensures a == b
  {
    LessTotal(a, b);
  }

  /** The keys of a finite set in ascending order. */
  ghost function Ascending(s: set<Key>): seq<Key> {
    if s == {} then [] else [Least(s)] + Ascending(s - {Least(s)})
  }

  lemma {:induction false} AscendingSpec(s: set<Key>)
    ensures forall k :: k in Ascending(s) <==> k in s
    ensures forall i, j :: 0 <= i < j < |Ascending(s)| ==> Less(Ascending(s)[i], Ascending(s)[j])
  {
    if s != {} {
      AscendingSpec(s - {Least(s)});
      var rest := Ascending(s - {Least(s)});
      forall i | 0 <= i < |rest|
        ensures Less(Least(s), rest[i])
      {
        assert rest[i] in rest;
      }
    }
  }

  /** The keys from `begin` to `end`, both included. */
  ghost function Between(keys: set<Key>, begin: Key, end: Key): set<Key> {
    set k | k in keys && !Less(k, begin) && !Less(end, k)
  }

  /** `lower_bound` and `upper_bound`: the first key that is not less than `bound`, or that is
      greater than it; None is the end of the map. */
  ghost function From(keys: set<Key>, bound: Key, strict: bool): set<Key> {
    set k | k in keys && if strict then Less(bound, k) else !Less(k, bound)
  }

  ghost predicate IsBound(it: Option<Key>, keys: set<Key>, bound: Key, strict: bool) {
    match it
    case None => From(keys, bound, strict) == {}
    case Some(k) => IsLeast(k, From(keys, bound, strict))
  }

  method Bound(keys: set<Key>, bound: Key, strict: bool) returns (it: Option<Key>)
    ensures IsBound(it, keys, bound, strict)
  {
    it := None;
    var rest := keys;
    while rest != {}
      invariant rest <= keys
      invariant IsBound(it, keys - rest, bound, strict)
      decreases rest
    {
      var k :| k in rest;
      var candidate := if strict then Less(bound, k) else !Less(k, bound);
      ghost var seen := From(keys - rest, bound, strict);
      assert keys - (rest - {k}) == (keys - rest) + {k};
      assert From(keys - (rest - {k}), bound, strict) == if candidate then seen + {k} else seen;
      if candidate {
        it := Smaller(it, k, seen);
      }
      rest := rest - {k};
    }
    assert keys - rest == keys;
  }

  method Smaller(it: Option<Key>, k: Key, ghost seen: set<Key>) returns (r: Option<Key>)
    requires it.None? ==> seen == {}
    requires it.Some? ==> IsLeast(it.value, seen)
    ensures r.Some? && IsLeast(r.value, seen + {k})
  {
    if it.None? || Less(k, it.value) {
      r := Some(k);
      forall x | x in seen
        ensures x == k || Less(k, x)
      {
        if x != it.value {
          LessTransitive(k, it.value, x);
        }
      }
    } else {
      r := it;
      LessTotal(k, it.value);
    }
  }

  // ----- A walk over a range -----

  /** A walk over the keys from `begin` to `end` stands at `it`; `todo` are the keys not passed yet. */
  ghost predicate Walking(keys: set<Key>, end: Key, it: Option<Key>, todo: set<Key>) {
    && From(keys, end, true) <= todo <= keys
    && (it.None? ==> todo == {})
    && (it.Some? ==> IsLeast(it.value, todo) && todo == From(keys, it.value, false))
  }

  /** No key lies strictly between the two. */
  ghost predicate NoneBetween(keys: set<Key>, low: Key, high: Key) {
    forall k :: k in keys ==> !(Less(low, k) && Less(k, high))
  }

  lemma WalkStarts(keys: set<Key>, begin: Key, end: Key, it: Option<Key>)
    requires NoneBetween(keys, end, begin)
    requires IsBound(it, keys, begin, false)
    ensures Walking(keys, end, it, From(keys, begin, false))
    ensures From(keys, begin, false) * Between(keys, begin, end) == Between(keys, begin, end)
  {
    var todo := From(keys, begin, false);
    if it.Some? {
      forall k | k in keys
        ensures k in todo <==> k in From(keys, it.value, false)
      {
        AtLeast(k, it.value, begin, todo);
      }
    }
  }

  /** The positions that the walk visits: `lower_bound(begin)` and then the successors. */
  ghost predicate Visits(keys: set<Key>, begin: Key, it: Option<Key>) {
    it.Some? ==> it.value in keys && !Less(it.value, begin)
  }

  /** The walk of `read_range` has a position at which it stops if and only if no key lies strictly
      between `end` and `begin`; in particular when `begin` is not after `end`. Otherwise it runs past
      the end of the map. */
  lemma WalkEndsIff(keys: set<Key>, begin: Key, end: Key, stop: Option<Key>)
    requires IsBound(stop, keys, end, true)
    ensures Visits(keys, begin, stop) <==> NoneBetween(keys, end, begin)
    ensures !Less(end, begin) ==> NoneBetween(keys, end, begin)
  {
    forall k | k in keys && Less(end, k) && Less(k, begin)
      ensures Less(end, begin)
    {
      LessTransitive(end, k, begin);
    }
    if !NoneBetween(keys, end, begin) {
      var k :| k in keys && Less(end, k) && Less(k, begin);
      assert k in From(keys, end, true);
      if k != stop.value {
        LessTransitive(stop.value, k, begin);
      }
    }
  }

  lemma AtLeast(k: Key, least: Key, begin: Key, todo: set<Key>)
    requires !Less(least, begin) && IsLeast(least, todo) && (!Less(k, begin) ==> k in todo)
    ensures !Less(k, begin) <==> !Less(k, least)
  {
    LessTotal(k, least);
    LessTotal(begin, least);
    if Less(k, begin) && begin != least {
      LessTransitive(k, begin, least);
    }
  }

  /** The walk is over exactly when no key of the range is left; otherwise it stands at the least one
      left, and the next position is the least of the remaining keys. */
  lemma WalkStep(keys: set<Key>, begin: Key, end: Key, it: Option<Key>, stop: Option<Key>, todo: set<Key>)
    requires Walking(keys, end, it, todo) && todo <= From(keys, begin, false)
    requires IsBound(stop, keys, end, true)
    ensures it == stop ==> todo * Between(keys, begin, end) == {}
    ensures it != stop ==> it.Some? && IsLeast(it.value, todo * Between(keys, begin, end))
    ensures it != stop ==> it.value in keys && !Less(end, it.value) && it.value in todo
    ensures it != stop ==> From(keys, it.value, true) == todo - {it.value}
  {
    if it == stop && it.Some? {
      forall k | k in todo
        ensures Less(end, k)
      {
        if k != it.value {
          LessTransitive(end, it.value, k);
        }
      }
    }
    if it != stop {
      assert it.Some?;
      NotBeyond(it.value, stop, From(keys, end, true), todo);
      forall k | k in keys
        ensures k in From(keys, it.value, true) <==> k in todo - {it.value}
      {
        LessTotal(k, it.value);
      }
    }
  }

  /** The least key that is left is not beyond the range, unless it is the stopping point. */
  lemma NotBeyond(k: Key, stop: Option<Key>, beyond: set<Key>, todo: set<Key>)
    requires IsLeast(k, todo) && beyond <= todo
    requires stop.None? <==> beyond == {}
    requires stop.Some? ==> IsLeast(stop.value, beyond)
    ensures k in beyond ==> stop == Some(k)
  {
    if k in beyond {
      LeastUnique(beyond, k, stop.value);
    }
  }

  lemma WalkAdvances(keys: set<Key>, end: Key, it: Key, next: Option<Key>, todo: set<Key>)
    requires Walking(keys, end, Some(it), todo) && !Less(end, it)
    requires From(keys, it, true) == todo - {it}
    requires IsBound(next, keys, it, true)
    ensures Walking(keys, end, next, todo - {it})
  {
    if next.Some? {
      forall k | k in keys
        ensures k in todo - {it} <==> k in From(keys, next.value, false)
      {
        LessTotal(k, next.value);
        if k in From(keys, next.value, false) {
          LessTotal(k, it);
          if k != next.value {
            LessTransitive(it, next.value, k);
          }
        }
      }
    }
  }

  lemma AscendingUnfolds(s: set<Key>, k: Key)
    requires IsLeast(k, s)
    ensures Ascending(s) == [k] + Ascending(s - {k})
  {
    LeastUnique(s, k, Least(s));
  }
}
