/** Sequences without repetition, and what it means to keep some members of a sequence in order. */
module Sequences {

  predicate NoDup<T(==)>(s: seq<T>) {
    forall i, j | 0 <= i < j < |s| :: s[i] != s[j]
  }

  predicate Increasing(p: seq<nat>) {
    forall i, j | 0 <= i < j < |p| :: p[i] < p[j]
  }

  /** `kept` are the members of `s` that pass the test, with their order and repetitions. */
  ghost predicate Kept<T(!new)>(kept: seq<T>, s: seq<T>, test: T -> bool) {
    exists p: seq<nat> :: KeptAt(kept, s, test, p)
  }

  ghost predicate KeptAt<T(!new)>(kept: seq<T>, s: seq<T>, test: T -> bool, p: seq<nat>) {
    && Increasing(p) && |kept| == |p|
    && (forall k | 0 <= k < |p| :: p[k] < |s| && kept[k] == s[p[k]])
    && (forall i: nat | i < |s| :: test(s[i]) <==> i in p)
  }

  lemma KeptNothing<T(!new)>(test: T -> bool)
    ensures Kept([], [], test)
  {
    assert KeptAt([], [], test, []);
  }

  /** One more member, kept or not. */
  lemma KeptNext<T(!new)>(kept: seq<T>, s: seq<T>, test: T -> bool, x: T)
    requires Kept(kept, s, test)
    ensures Kept(kept + (if test(x) then [x] else []), s + [x], test)
  {
    var p: seq<nat> :| KeptAt(kept, s, test, p);
    if test(x) {
      TakenNext(kept, s, test, p, x);
      assert KeptAt(kept + [x], s + [x], test, p + [|s|]);
    } else {
      LeftNext(kept, s, test, p, x);
      assert kept + [] == kept;
      assert KeptAt(kept, s + [x], test, p);
    }
  }

  lemma TakenNext<T(!new)>(kept: seq<T>, s: seq<T>, test: T -> bool, p: seq<nat>, x: T)
    requires KeptAt(kept, s, test, p) && test(x)
    ensures KeptAt(kept + [x], s + [x], test, p + [|s|])
  {
    var q := p + [|s|];
    assert forall i: nat | i < |s| :: (s + [x])[i] == s[i];
    assert q[|p|] == |s|;
    assert forall i :: i in q <==> i in p || i == |s|;
  }

  lemma LeftNext<T(!new)>(kept: seq<T>, s: seq<T>, test: T -> bool, p: seq<nat>, x: T)
    requires KeptAt(kept, s, test, p) && !test(x)
    ensures KeptAt(kept, s + [x], test, p)
  {
    assert forall i: nat | i < |s| :: (s + [x])[i] == s[i];
    assert forall i <- p :: i < |s|;
  }

  /** Only one sequence is kept. */
  lemma {:induction false} KeptOnce<T(!new)>(a: seq<T>, b: seq<T>, s: seq<T>, test: T -> bool)
    requires Kept(a, s, test) && Kept(b, s, test)
    ensures a == b
  {
    var p: seq<nat> :| KeptAt(a, s, test, p);
    var q: seq<nat> :| KeptAt(b, s, test, q);
    assert forall i :: i in p <==> i in q;
    SameIncreasing(p, q);
  }

  /** An increasing sequence is determined by its members. */
  lemma {:induction false} SameIncreasing(p: seq<nat>, q: seq<nat>)
    requires Increasing(p) && Increasing(q) && forall i :: i in p <==> i in q
    ensures p == q
  {
    if q != [] {
      HasMember(q);
    }
    if p != [] {
      HasMember(p);
      SameLast(p, q);
      var m, n := |p| - 1, |q| - 1;
      forall i
        ensures i in p[..m] <==> i in q[..n]
      {
        EarlierMember(p, i);
        EarlierMember(q, i);
      }
      SameIncreasing(p[..m], q[..n]);
      assert p == p[..m] + [p[m]] && q == q[..n] + [q[n]];
    }
  }

  lemma HasMember(q: seq<nat>)
    requires q != []
    ensures exists i: nat :: i in q
  {
    assert q[0] in q;
  }

  lemma SameLast(p: seq<nat>, q: seq<nat>)
    requires Increasing(p) && Increasing(q) && p != [] && q != [] && forall i :: i in p <==> i in q
    ensures p[|p| - 1] == q[|q| - 1]
  {
    assert p[|p| - 1] in p && q[|q| - 1] in q;
  }

  lemma EarlierMember(p: seq<nat>, i: nat)
    requires Increasing(p) && p != []
    ensures i in p[..|p| - 1] <==> i in p && i != p[|p| - 1]
  {
  }

  lemma IncreasingNext(p: seq<nat>, n: nat)
    requires Increasing(p) && forall i <- p :: i < n
    ensures Increasing(p + [n]) && forall i: nat :: i in p + [n] <==> i in p || i == n
  {
    assert forall k | 0 <= k < |p| :: p[k] in p;
  }

  /** The numbers below `n` that pass the test, in order. */
  function Positions(n: nat, test: nat -> bool): seq<nat> {
    if n == 0 then [] else Positions(n - 1, test) + (if test(n - 1) then [n - 1] else [])
  }

  lemma {:induction false} PositionsAre(n: nat, test: nat -> bool)
    ensures Increasing(Positions(n, test)) && forall i: nat :: i in Positions(n, test) <==> i < n && test(i)
  {
    if n > 0 {
      PositionsAre(n - 1, test);
      var before := Positions(n - 1, test);
      assert forall k | 0 <= k < |before| :: before[k] in before;
    }
  }
}
