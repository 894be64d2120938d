/** A log sent over a link. The sender encodes each record against its state; the receiver
    decodes what was written, in order, each against the state it has reached. Both look
    things up in tables without an order, so either may have more than one outcome. */
module Deliveries {
  import opened Base

  /** `encodes` and `decodes` give every outcome of encoding a record and of decoding one;
      `apply` is the step a record takes, and `agree` says when two states are as good as
      the same. */
  datatype Link<!X, !R(==), !K(==), !E(==)> = Link(
    encodes: (X, R) -> iset<Result<seq<K>, E>>,
    decodes: (X, K) -> iset<Result<R, E>>,
    apply: (X, R) -> X,
    agree: (X, X) -> bool)

  /** `ks` is on the link and `log` is still to be sent from `x`: whatever the outcome of
      every step, all of it is written, read and applied, and the state at the end agrees
      with `goal`. */
  ghost predicate Arrives<X(!new), R(!new), K(!new), E(!new)>(l: Link<X, R, K, E>, x: X, ks: seq<K>, log: seq<R>, goal: X)
    decreases |log|, |ks|
  {
    if ks != [] then
      forall o :: o in l.decodes(x, ks[0]) ==> o.Ok? && Arrives(l, l.apply(x, o.value), ks[1..], log, goal)
    else if log == [] then l.agree(x, goal)
    else forall o :: o in l.encodes(x, log[0]) ==> o.Ok? && Arrives(l, x, o.value, log[1..], goal)
  }

  /** However it is written and read, `rec` alone leads to a state that agrees with `goal`. */
  ghost predicate Carries<X(!new), R(!new), K(!new), E(!new)>(l: Link<X, R, K, E>, x: X, rec: R, goal: X)
  {
    forall o :: o in l.encodes(x, rec) ==> o.Ok? && Arrives(l, x, o.value, [], goal)
  }

  /** A record that is always written as `k`, which always decodes as one that agrees. */
  lemma OneCarries<X(!new), R(!new), K(!new), E(!new)>(l: Link<X, R, K, E>, x: X, rec: R, k: K, goal: X)
    requires l.encodes(x, rec) == iset{Ok([k])}
    requires forall o :: o in l.decodes(x, k) ==> o.Ok? && l.agree(l.apply(x, o.value), goal)
    ensures Carries(l, x, rec, goal)
  {
    forall o | o in l.decodes(x, k) ensures o.Ok? && Arrives(l, l.apply(x, o.value), [k][1..], [], goal) {
      assert [k][1..] == [];
    }
  }

  /** The first record always leads to `y`, and the others arrive from there. */
  lemma HeadArrives<X(!new), R(!new), K(!new), E(!new)>(l: Link<X, R, K, E>, x: X, ks: seq<K>, y: X, goal: X)
    requires ks != [] && Arrives(l, y, ks[1..], [], goal)
    requires forall o :: o in l.decodes(x, ks[0]) ==> o.Ok? && l.apply(x, o.value) == y
    ensures Arrives(l, x, ks, [], goal)
  {
  }

  lemma {:induction false} Weakens<X(!new), R(!new), K(!new), E(!new)>(l: Link<X, R, K, E>, x: X, ks: seq<K>, mid: X, goal: X)
    requires Arrives(l, x, ks, [], mid)
    requires forall z :: l.agree(z, mid) ==> l.agree(z, goal)
    ensures Arrives(l, x, ks, [], goal)
    decreases |ks|
  {
    if ks != [] {
      forall o | o in l.decodes(x, ks[0]) ensures o.Ok? && Arrives(l, l.apply(x, o.value), ks[1..], [], goal) {
        Weakens(l, l.apply(x, o.value), ks[1..], mid, goal);
      }
    }
  }

  /** `log` is sent after `ks` has arrived. */
  lemma {:induction false} Continues<X(!new), R(!new), K(!new), E(!new)>(
    l: Link<X, R, K, E>, x: X, ks: seq<K>, mid: X, log: seq<R>, goal: X)
    requires Arrives(l, x, ks, [], mid)
    requires forall z :: l.agree(z, mid) ==> Arrives(l, z, [], log, goal)
    ensures Arrives(l, x, ks, log, goal)
    decreases |ks|
  {
    if ks != [] {
      forall o | o in l.decodes(x, ks[0]) ensures o.Ok? && Arrives(l, l.apply(x, o.value), ks[1..], log, goal) {
        Continues(l, l.apply(x, o.value), ks[1..], mid, log, goal);
      }
    }
  }

  /** What each record means for a state, one after the other. */
  function Meaning<X, R>(meant: (X, R) -> X, x: X, log: seq<R>): X
    decreases |log|
  {
    if log == [] then x else Meaning(meant, meant(x, log[0]), log[1..])
  }

  /** `sends` holds of every record, in the state those before it mean. */
  ghost predicate AllSend<X, R>(meant: (X, R) -> X, sends: (X, R) -> bool, x: X, log: seq<R>)
    decreases |log|
  {
    log != [] ==> sends(x, log[0]) && AllSend(meant, sends, meant(x, log[0]), log[1..])
  }

  /** In a sound state a record that may be sent arrives as what it means. */
  ghost predicate Delivers<X(!new), R(!new), K(!new), E(!new)>(
    l: Link<X, R, K, E>, sound: X -> bool, sends: (X, R) -> bool, meant: (X, R) -> X)
  {
    forall x, r :: sound(x) && sends(x, r) ==> Carries(l, x, r, meant(x, r))
  }

  /** States that agree can send the same records, and agree on what those mean. */
  ghost predicate Respects<X(!new), R(!new)>(
    agree: (X, X) -> bool, sound: X -> bool, sends: (X, R) -> bool, meant: (X, R) -> X)
  {
    forall x, d, r :: agree(x, d) && sound(d) && sends(d, r) ==>
      sound(x) && sends(x, r) && agree(meant(x, r), meant(d, r))
  }

  ghost predicate Transitive<X(!new)>(agree: (X, X) -> bool)
  {
    forall a, b, c :: agree(a, b) && agree(b, c) ==> agree(a, c)
  }

  /** `inv` is kept by what a record means, and makes a state sound. */
  ghost predicate Keeps<X(!new), R(!new)>(inv: X -> bool, sound: X -> bool, meant: (X, R) -> X)
  {
    (forall x :: inv(x) ==> sound(x)) && (forall x, r :: inv(x) ==> inv(meant(x, r)))
  }

  /** From a state that agrees with `d`, a record arrives as what it means for `d`. */
  lemma AgreeingCarries<X(!new), R(!new), K(!new), E(!new)>(
    l: Link<X, R, K, E>, sound: X -> bool, sends: (X, R) -> bool, meant: (X, R) -> X, x: X, d: X, r: R)
    requires Delivers(l, sound, sends, meant) && Respects(l.agree, sound, sends, meant) && Transitive(l.agree)
    requires l.agree(x, d) && sound(d) && sends(d, r)
    ensures Carries(l, x, r, meant(d, r))
  {
    assert Carries(l, x, r, meant(x, r)) && l.agree(meant(x, r), meant(d, r));
    forall o | o in l.encodes(x, r) ensures o.Ok? && Arrives(l, x, o.value, [], meant(d, r)) {
      Weakens(l, x, o.value, meant(x, r), meant(d, r));
    }
  }

  /** Every log whose records may be sent arrives as what they mean. */
  lemma {:induction false} LogArrives<X(!new), R(!new), K(!new), E(!new)>(
    l: Link<X, R, K, E>, inv: X -> bool, sound: X -> bool, sends: (X, R) -> bool, meant: (X, R) -> X,
    x: X, d: X, log: seq<R>)
    requires Delivers(l, sound, sends, meant) && Respects(l.agree, sound, sends, meant) && Transitive(l.agree)
    requires Keeps(inv, sound, meant)
    requires l.agree(x, d) && inv(d) && AllSend(meant, sends, d, log)
    ensures Arrives(l, x, [], log, Meaning(meant, d, log))
    decreases |log|
  {
    if log != [] {
      var d', rest, goal := meant(d, log[0]), log[1..], Meaning(meant, d, log);
      AgreeingCarries(l, sound, sends, meant, x, d, log[0]);
      forall z | l.agree(z, d') ensures Arrives(l, z, [], rest, goal) {
        LogArrives(l, inv, sound, sends, meant, z, d', rest);
      }
      forall o | o in l.encodes(x, log[0]) ensures o.Ok? && Arrives(l, x, o.value, rest, goal) {
        Continues(l, x, o.value, d', rest, goal);
      }
    }
  }

  /** A log that arrives, judged by a coarser agreement with another goal. */
  lemma {:induction false} Coarser<X(!new), R(!new), K(!new), E(!new)>(
    l: Link<X, R, K, E>, agree: (X, X) -> bool, x: X, ks: seq<K>, log: seq<R>, goal: X, goal': X)
    requires Arrives(l, x, ks, log, goal)
    requires forall z :: l.agree(z, goal) ==> agree(z, goal')
    ensures Arrives(l.(agree := agree), x, ks, log, goal')
    decreases |log|, |ks|
  {
    var l' := l.(agree := agree);
    if ks != [] {
      forall o | o in l'.decodes(x, ks[0]) ensures o.Ok? && Arrives(l', l'.apply(x, o.value), ks[1..], log, goal') {
        Coarser(l, agree, l.apply(x, o.value), ks[1..], log, goal, goal');
      }
    } else if log != [] {
      forall o | o in l'.encodes(x, log[0]) ensures o.Ok? && Arrives(l', x, o.value, log[1..], goal') {
        Coarser(l, agree, x, o.value, log[1..], goal, goal');
      }
    }
  }
}
