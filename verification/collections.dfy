/** Finite maps, maps of maps, and the byte order on strings. */
module Collections {
  import opened Base

  lemma Associates<T>(a: seq<T>, b: seq<T>, c: seq<T>)
    ensures a + (b + c) == a + b + c
  {
  }

  lemma ElemAt<T>(ks: seq<T>, i: nat)
    requires i < |ks|
    ensures ks[i] in Elems(ks)
  {
  }

  /** A walk of an empty table visits nothing. */
  lemma EmptyWalk<T>(ks: seq<T>)
    requires Enumerates(ks, {})
    ensures ks == []
  {
    if |ks| > 0 { ElemAt(ks, 0); }
  }

  // ----- two-level maps: an outer hash table of inner tables -----

  /** `entry(a).or_default()`. */
  function Inner<A, B, V>(m: map<A, map<B, V>>, a: A): map<B, V>
  {
    if a in m then m[a] else map[]
  }

  /** `entry(a).or_default().insert(b, v)`. */
  function NestPut<A, B, V>(m: map<A, map<B, V>>, a: A, b: B, v: V): map<A, map<B, V>>
  {
    m[a := Inner(m, a)[b := v]]
  }

  /** Removes `(a, b)`, and the inner table too once it is empty. */
  function NestDrop<A, B, V>(m: map<A, map<B, V>>, a: A, b: B): map<A, map<B, V>>
  {
    if a !in m then m
    else if |m[a] - {b}| == 0 then m - {a}
    else m[a := m[a] - {b}]
  }

  predicate InNest<A, B, V>(m: map<A, map<B, V>>, a: A, b: B)
  {
    a in m && b in m[a]
  }

  predicate NoEmptyInner<A, B, V>(m: map<A, map<B, V>>)
  {
    forall a :: a in m ==> |m[a]| > 0
  }

  /** A put changes one entry, a drop removes one, and neither leaves an empty
      inner table behind. */
  lemma NestPutEntries<A, B, V>(m: map<A, map<B, V>>, a: A, b: B, v: V)
    ensures NoEmptyInner(m) ==> NoEmptyInner(NestPut(m, a, b, v))
    ensures forall a', b' :: InNest(NestPut(m, a, b, v), a', b') ==>
              if a' == a && b' == b then NestPut(m, a, b, v)[a'][b'] == v
              else InNest(m, a', b') && NestPut(m, a, b, v)[a'][b'] == m[a'][b']
  {
    assert b in Inner(m, a)[b := v];
  }

  lemma NestPutTwice<A, B, V>(m: map<A, map<B, V>>, a: A, b: B, u: V, v: V)
    ensures NestPut(NestPut(m, a, b, u), a, b, v) == NestPut(m, a, b, v)
  {
    assert Inner(m, a)[b := u][b := v] == Inner(m, a)[b := v];
  }

  lemma NestPutSame<A, B, V>(m: map<A, map<B, V>>, a: A, b: B)
    requires InNest(m, a, b)
    ensures NestPut(m, a, b, m[a][b]) == m
  {
    assert m[a][b := m[a][b]] == m[a];
  }

  lemma InnerWithout<A, B, V>(m: map<A, map<B, V>>, k: A, a: A)
    requires a != k
    ensures Inner(m - {k}, a) == Inner(m, a)
  {
  }

  lemma NestDropEntries<A, B, V>(m: map<A, map<B, V>>, a: A, b: B)
    ensures NoEmptyInner(m) ==> NoEmptyInner(NestDrop(m, a, b))
    ensures forall a', b' :: InNest(NestDrop(m, a, b), a', b') ==>
              InNest(m, a', b') && NestDrop(m, a, b)[a'][b'] == m[a'][b']
  {
  }

  /** `m` without its empty inner tables. */
  function Compact<A, B, V>(m: map<A, map<B, V>>): map<A, map<B, V>>
  {
    map a | a in m && |m[a]| > 0 :: m[a]
  }

  function FlatKeys<A, B, V>(m: map<A, map<B, V>>): set<(A, B)>
  {
    set a, b | a in m && b in m[a] :: (a, b)
  }

  // ----- the part of a table a walk has visited -----

  function Take<T>(s: seq<T>, i: nat): seq<T>
  {
    if i <= |s| then s[..i] else s
  }

  function Part<K, V>(m: map<K, V>, ks: seq<K>, i: nat): map<K, V>
  {
    map k | k in m && k in Take(ks, i) :: m[k]
  }

  lemma PartStep<K, V>(m: map<K, V>, ks: seq<K>, i: nat)
    requires Enumerates(ks, m.Keys) && i < |ks|
    ensures ks[i] in m && ks[i] !in Part(m, ks, i)
    ensures Part(m, ks, i + 1) == Part(m, ks, i)[ks[i] := m[ks[i]]]
  {
    assert ks[i] in Elems(ks);
    assert Take(ks, i + 1) == Take(ks, i) + [ks[i]];
  }

  lemma PartEnds<K, V>(m: map<K, V>, ks: seq<K>)
    requires Enumerates(ks, m.Keys)
    ensures Part(m, ks, 0) == map[] && Part(m, ks, |ks|) == m
  {
    assert Take(ks, |ks|) == ks;
    assert forall k :: k in m ==> k in Elems(ks);
  }

  /** What the walk has visited of the inner table of `a`. */
  function Visited<A, B, V>(m: map<A, map<B, V>>, ks: seq<(A, B)>, i: nat, a: A): map<B, V>
    requires a in m
  {
    map b | b in m[a] && (a, b) in Take(ks, i) :: m[a][b]
  }

  function NestPart<A, B, V>(m: map<A, map<B, V>>, ks: seq<(A, B)>, i: nat): map<A, map<B, V>>
  {
    map a | a in m && |Visited(m, ks, i, a)| > 0 :: Visited(m, ks, i, a)
  }

  lemma VisitedStep<A, B, V>(m: map<A, map<B, V>>, ks: seq<(A, B)>, i: nat, a: A)
    requires Enumerates(ks, FlatKeys(m)) && i < |ks| && a in m
    ensures InNest(m, ks[i].0, ks[i].1)
    ensures a != ks[i].0 ==> Visited(m, ks, i + 1, a) == Visited(m, ks, i, a)
    ensures a == ks[i].0 ==> ks[i].1 !in Visited(m, ks, i, a)
    ensures a == ks[i].0 ==> Visited(m, ks, i + 1, a) == Visited(m, ks, i, a)[ks[i].1 := m[a][ks[i].1]]
  {
    assert ks[i] in Elems(ks);
    assert Take(ks, i + 1) == Take(ks, i) + [ks[i]];
  }

  lemma NestPartStep<A, B, V>(m: map<A, map<B, V>>, ks: seq<(A, B)>, i: nat)
    requires Enumerates(ks, FlatKeys(m)) && i < |ks|
    ensures InNest(m, ks[i].0, ks[i].1) && !InNest(NestPart(m, ks, i), ks[i].0, ks[i].1)
    ensures NestPart(m, ks, i + 1) == NestPut(NestPart(m, ks, i), ks[i].0, ks[i].1, m[ks[i].0][ks[i].1])
  {
    assert ks[i] in Elems(ks);
    var (a, b) := ks[i];
    var before, after := NestPart(m, ks, i), NestPart(m, ks, i + 1);
    VisitedStep(m, ks, i, a);
    var grown := Visited(m, ks, i, a)[b := m[a][b]];
    assert b in grown;
    assert Inner(before, a) == Visited(m, ks, i, a);
    NestPartKeeps(m, ks, i, a);
    AgreeElsewhere(after, before, a);
  }

  lemma AgreeElsewhere<K, V>(p: map<K, V>, q: map<K, V>, k: K)
    requires k in p && p - {k} == q - {k}
    ensures p == q[k := p[k]]
  {
    forall k' | k' != k ensures (k' in p <==> k' in q) && (k' in p ==> p[k'] == q[k']) {
      assert k' in p <==> k' in p - {k};
      assert k' in q <==> k' in q - {k};
      if k' in p { assert (p - {k})[k'] == p[k'] && (q - {k})[k'] == q[k']; }
    }
  }

  lemma NestPartKeeps<A, B, V>(m: map<A, map<B, V>>, ks: seq<(A, B)>, i: nat, a: A)
    requires Enumerates(ks, FlatKeys(m)) && i < |ks| && a == ks[i].0
    ensures NestPart(m, ks, i + 1) - {a} == NestPart(m, ks, i) - {a}
  {
    forall a' | a' in m && a' != a
      ensures Visited(m, ks, i + 1, a') == Visited(m, ks, i, a')
    {
      VisitedStep(m, ks, i, a');
    }
  }

  lemma NestPartEnds<A, B, V>(m: map<A, map<B, V>>, ks: seq<(A, B)>)
    requires Enumerates(ks, FlatKeys(m))
    ensures NestPart(m, ks, 0) == map[] && NestPart(m, ks, |ks|) == Compact(m)
  {
    assert Take(ks, |ks|) == ks && Take(ks, 0) == [];
    forall a | a in m ensures Visited(m, ks, |ks|, a) == m[a] && Visited(m, ks, 0, a) == map[] {
      forall b | b in m[a] ensures (a, b) in ks { assert (a, b) in FlatKeys(m); }
    }
  }

  lemma CompactIsStable<A, B, V>(m: map<A, map<B, V>>)
    ensures NoEmptyInner(Compact(m)) && FlatKeys(Compact(m)) == FlatKeys(m)
    ensures NoEmptyInner(m) <==> Compact(m) == m
  {
    assert forall a :: a in m && a !in Compact(m) ==> |m[a]| == 0;
    assert NoEmptyInner(m) ==> Compact(m) == m;
    if Compact(m) == m { assert forall a :: a in m ==> a in Compact(m); }
    forall k | k in FlatKeys(m) ensures k in FlatKeys(Compact(m)) { assert k.0 in Compact(m); }
  }

  lemma SameCompact<A, B, V>(m: map<A, map<B, V>>, m': map<A, map<B, V>>, a: A)
    requires Compact(m) == Compact(m')
    ensures (a in m && |m[a]| > 0) == (a in m' && |m'[a]| > 0)
    ensures a in m && |m[a]| > 0 ==> m[a] == m'[a]
    ensures Inner(m, a) == Inner(m', a)
  {
    assert a in Compact(m) <==> a in Compact(m');
    if a in Compact(m) { assert Compact(m)[a] == Compact(m')[a]; }
  }

  /** Compaction forgets nothing an update of one inner table can see. */
  lemma CompactUpdate<A, B, V>(m: map<A, map<B, V>>, m': map<A, map<B, V>>, a: A, inner: map<B, V>)
    requires Compact(m) == Compact(m')
    ensures Inner(m, a) == Inner(m', a)
    ensures Compact(m[a := inner]) == Compact(m'[a := inner])
  {
    SameCompact(m, m', a);
    var c, c' := Compact(m[a := inner]), Compact(m'[a := inner]);
    forall k ensures (k in c <==> k in c') && (k in c ==> c[k] == c'[k]) { SameCompact(m, m', k); }
  }

  // ----- the byte order on strings -----

  /** Rust's `Ord` on `str`: lexicographic, a prefix first. */
  predicate StrLeq(a: Str, b: Str)
  {
    a == [] || (b != [] && (a[0] < b[0] || (a[0] == b[0] && StrLeq(a[1..], b[1..]))))
  }

  lemma {:induction false} StrLeqTotal(a: Str, b: Str)
    ensures StrLeq(a, b) || StrLeq(b, a)
    ensures StrLeq(a, b) && StrLeq(b, a) ==> a == b
  {
    if a != [] && b != [] && a[0] == b[0] {
      StrLeqTotal(a[1..], b[1..]);
      assert a == [a[0]] + a[1..] && b == [b[0]] + b[1..];
    }
  }

  lemma {:induction false} StrLeqTransitive(a: Str, b: Str, c: Str)
    requires StrLeq(a, b) && StrLeq(b, c)
    ensures StrLeq(a, c)
  {
    if a != [] && a[0] == b[0] == c[0] {
      StrLeqTransitive(a[1..], b[1..], c[1..]);
    }
  }

  /** A prefix sorts at or below the string it opens. */
  lemma {:induction false} PrefixSortsBelow(p: Str, s: Str)
    requires p <= s
    ensures StrLeq(p, s)
  {
    if p != [] { PrefixSortsBelow(p[1..], s[1..]); }
  }

  // ----- ordered keys -----

  ghost function Member<T>(s: set<T>): (x: T)
    requires s != {}
    ensures x in s
  {
    var x :| x in s; x
  }

  /** Some order in which a finite set may be walked. */
  lemma {:induction false} SomeWalk<T>(s: set<T>) returns (ks: seq<T>)
    ensures Enumerates(ks, s)
    decreases |s|
  {
    if |s| == 0 {
      ks := [];
    } else {
      var x := Member(s);
      var rest := SomeWalk(s - {x});
      assert forall k :: k in rest ==> k in Elems(rest);
      ks := [x] + rest;
      assert Elems(ks) == {x} + Elems(rest);
    }
  }

  /** One that starts with a given element. */
  lemma WalkFrom<T>(s: set<T>, first: T) returns (ks: seq<T>)
    requires first in s
    ensures Enumerates(ks, s) && ks[0] == first
  {
    var rest := SomeWalk(s - {first});
    assert forall k :: k in rest ==> k in Elems(rest);
    ks := [first] + rest;
    assert Elems(ks) == {first} + Elems(rest);
  }

  /** One that ends with a given element. */
  lemma WalkTo<T>(s: set<T>, last: T) returns (ks: seq<T>)
    requires last in s
    ensures Enumerates(ks, s) && ks[|ks| - 1] == last
  {
    var rest := SomeWalk(s - {last});
    assert forall k :: k in rest ==> k in Elems(rest);
    ks := rest + [last];
    assert Elems(ks) == Elems(rest) + {last};
  }

  lemma {:induction false} LeastExists(s: set<int>)
    requires s != {}
    ensures exists k :: IsLeast(k, s)
    decreases |s|
  {
    var x := Member(s);
    if s == {x} {
      assert IsLeast(x, s);
    } else {
      var rest := s - {x};
      assert s == rest + {x};
      LeastExists(rest);
      var r :| IsLeast(r, rest);
      assert IsLeast(if r < x then r else x, s);
    }
  }

  predicate IsLeast(k: int, s: set<int>)
  {
    k in s && forall x :: x in s ==> k <= x
  }

  /** One inner table in ascending key order, as a `BTreeMap` yields it. */
  method WalkIndices(keys: set<int>) returns (ks: seq<int>)
    ensures Elems(ks) == keys
    ensures Increasing(ks)
  {
    ks := [];
    var rest := keys;
    while rest != {}
      invariant rest <= keys && Elems(ks) == keys - rest
      invariant Increasing(ks)
      invariant forall x :: x in rest ==> Above(x, ks)
      decreases |rest|
    {
      LeastExists(rest);
      var k :| k in rest && IsLeast(k, rest);
      VisitLeast(ks, rest, keys, k);
      ks := ks + [k];
      rest := rest - {k};
    }
  }

  predicate Increasing(ks: seq<int>)
  {
    forall i, j :: 0 <= i < j < |ks| ==> ks[i] < ks[j]
  }

  predicate Above(x: int, ks: seq<int>)
  {
    forall i :: 0 <= i < |ks| ==> ks[i] < x
  }

  lemma VisitLeast(ks: seq<int>, rest: set<int>, keys: set<int>, k: int)
    requires rest <= keys && Elems(ks) == keys - rest && Increasing(ks) && IsLeast(k, rest)
    requires forall x :: x in rest ==> Above(x, ks)
    ensures Elems(ks + [k]) == keys - (rest - {k}) && Increasing(ks + [k])
    ensures forall x :: x in rest - {k} ==> Above(x, ks + [k])
  {
    assert Above(k, ks);
    assert Elems(ks + [k]) == Elems(ks) + {k};
    forall x | x in rest - {k} ensures Above(x, ks + [k]) { assert Above(x, ks) && k < x; }
  }

  /** The keys of a hash table, in whatever order it yields them. */
  method WalkKeys<K(==)>(keys: set<K>) returns (ks: seq<K>)
    ensures Enumerates(ks, keys)
  {
    ks := [];
    var rest := keys;
    while rest != {}
      invariant Distinct(ks) && Elems(ks) + rest == keys && Elems(ks) !! rest
      decreases |rest|
    {
      var k :| k in rest;
      assert forall i :: 0 <= i < |ks| ==> ks[i] in Elems(ks);
      ks := ks + [k];
      rest := rest - {k};
      assert Elems(ks) == Elems(ks[..|ks| - 1]) + {k};
    }
  }
}
