/** Which addresses the sample is: a stable descending order of the scores, and the ranks taken from it. */
module SampleRanks {
  import opened Sequences
  import opened Sorting
  import opened Sampling

  // ---------------------------------------------------------------- the order

  /** Place `a` comes before place `b`: its key is smaller, or equal and further ahead. */
  ghost predicate Precedes<T(!new)>(s: seq<T>, key: T -> real, a: nat, b: nat)
    requires a < |s| && b < |s|
  {
    key(s[a]) < key(s[b]) || (key(s[a]) == key(s[b]) && a < b)
  }

  /** `order` numbers the places of `s`, none of them twice since each comes strictly before the next. */
  ghost predicate StableOrder<T(!new)>(order: seq<nat>, s: seq<T>, key: T -> real) {
    && |order| == |s|
    && (forall k | 0 <= k < |order| :: order[k] < |s|)
    && (forall j, k | 0 <= j < k < |order| :: Precedes(s, key, order[j], order[k]))
  }

  /** Place 0 inserted at `at` among the others, each of which is one further. */
  function Inserted(rest: seq<nat>, at: nat): (r: seq<nat>)
    requires at <= |rest|
    ensures |r| == |rest| + 1
    ensures forall k {:trigger r[k]} | 0 <= k < |r| ::
              r[k] == if k < at then rest[k] + 1 else if k == at then 0 else rest[k - 1] + 1
  {
    seq(|rest| + 1, k requires 0 <= k <= |rest| =>
      if k < at then rest[k] + 1 else if k == at then 0 else rest[k - 1] + 1)
  }

  lemma {:induction false} InsertByPlace<T(!new)>(x: T, s: seq<T>, key: T -> real) returns (at: nat)
    ensures at <= |s| && |InsertBy(x, s, key)| == |s| + 1
    ensures forall k {:trigger InsertBy(x, s, key)[k]} | 0 <= k <= |s| ::
              InsertBy(x, s, key)[k] == if k < at then s[k] else if k == at then x else s[k - 1]
    ensures forall i | 0 <= i < at :: key(s[i]) < key(x)
    ensures at < |s| ==> key(x) <= key(s[at])
  {
    if s == [] || key(x) <= key(s[0]) {
      at := 0;
    } else {
      var rest := InsertByPlace(x, s[1..], key);
      at := rest + 1;
      PlaceFurther(s[0], s[1..], x, InsertBy(x, s[1..], key), rest);
      assert s == [s[0]] + s[1..];
    }
  }

  lemma PlaceFurther<T(!new)>(first: T, s: seq<T>, x: T, inserted: seq<T>, at: nat)
    requires at <= |s| && |inserted| == |s| + 1
    requires forall k {:trigger inserted[k]} | 0 <= k <= |s| ::
               inserted[k] == if k < at then s[k] else if k == at then x else s[k - 1]
    ensures var whole := [first] + s;
            forall k {:trigger ([first] + inserted)[k]} | 0 <= k <= |whole| ::
              ([first] + inserted)[k] == if k < at + 1 then whole[k] else if k == at + 1 then x else whole[k - 1]
  {
    var whole := [first] + s;
    forall k | 0 <= k <= |whole|
      ensures ([first] + inserted)[k] == if k < at + 1 then whole[k] else if k == at + 1 then x else whole[k - 1]
    {
      if k > 0 {
        assert ([first] + inserted)[k] == inserted[k - 1];
      }
    }
  }

  lemma {:induction false} SortByOrder<T(!new)>(s: seq<T>, key: T -> real) returns (order: seq<nat>)
    ensures StableOrder(order, s, key)
    ensures |SortBy(s, key)| == |s| && forall k | 0 <= k < |s| :: SortBy(s, key)[k] == s[order[k]]
  {
    if s == [] {
      order := [];
    } else {
      var sorted := SortBy(s[1..], key);
      var rest := SortByOrder(s[1..], key);
      var at := InsertByPlace(s[0], sorted, key);
      order := Inserted(rest, at);
      MembersInserted(s, sorted, SortBy(s, key), rest, at);
      forall j, k | 0 <= j < k < |order|
        ensures Precedes(s, key, order[j], order[k])
      {
        SortByProperties(s[1..], key);
        InsertedPair(s, key, rest, at, j, k);
      }
    }
  }

  lemma MembersInserted<T(!new)>(s: seq<T>, sorted: seq<T>, whole: seq<T>, rest: seq<nat>, at: nat)
    requires s != [] && |rest| == |sorted| == |s| - 1 && at <= |rest| && |whole| == |s|
    requires forall k | 0 <= k < |rest| :: rest[k] < |s| - 1 && sorted[k] == s[1..][rest[k]]
    requires forall k {:trigger whole[k]} | 0 <= k < |s| ::
               whole[k] == if k < at then sorted[k] else if k == at then s[0] else sorted[k - 1]
    ensures forall k | 0 <= k < |s| :: Inserted(rest, at)[k] < |s| && whole[k] == s[Inserted(rest, at)[k]]
  {
    forall k | 0 <= k < |s|
      ensures Inserted(rest, at)[k] < |s| && whole[k] == s[Inserted(rest, at)[k]]
    {
      if k < at {
        assert whole[k] == sorted[k] && sorted[k] == s[1..][rest[k]];
      } else if k > at {
        assert whole[k] == sorted[k - 1] && sorted[k - 1] == s[1..][rest[k - 1]];
      }
    }
  }

  /** The first member is put before the members with its key. */
  lemma InsertedPair<T(!new)>(s: seq<T>, key: T -> real, rest: seq<nat>, at: nat, j: nat, k: nat)
    requires s != [] && StableOrder(rest, s[1..], key) && at <= |rest| && j < k <= |rest|
    requires forall i | 0 <= i < at :: key(s[1..][rest[i]]) < key(s[0])
    requires at < |rest| ==> key(s[0]) <= key(s[1..][rest[at]])
    ensures Inserted(rest, at)[j] < |s| && Inserted(rest, at)[k] < |s|
    ensures Precedes(s, key, Inserted(rest, at)[j], Inserted(rest, at)[k])
  {
    var order := Inserted(rest, at);
    if j == at {
      assert order[k] == rest[k - 1] + 1;
      if k - 1 > at {
        assert Precedes(s[1..], key, rest[at], rest[k - 1]);
      }
    } else if k == at {
      assert order[j] == rest[j] + 1;
    } else {
      assert Precedes(s[1..], key, rest[if j < at then j else j - 1], rest[if k < at then k else k - 1]);
    }
  }

  // ---------------------------------------------------------------- the members taken

  /** The emails at these positions of the order. */
  ghost predicate EmailsTaken(emails: seq<string>, ordered: seq<Scored>, p: seq<nat>) {
    |emails| == |p| && forall k | 0 <= k < |p| :: p[k] < |ordered| && emails[k] == ordered[p[k]].email
  }

  lemma TakenOfPrefix(emails: seq<string>, ordered: seq<Scored>, p: seq<nat>)
    requires ordered != [] && EmailsTaken(emails, ordered[..|ordered| - 1], p)
    ensures EmailsTaken(emails, ordered, p)
  {
  }

  lemma TakenLast(emails: seq<string>, ordered: seq<Scored>, p: seq<nat>)
    requires ordered != [] && p != [] && p[|p| - 1] == |ordered| - 1
    requires EmailsTaken(emails, ordered[..|ordered| - 1], p[..|p| - 1])
    ensures EmailsTaken(emails + [ordered[|ordered| - 1].email], ordered, p)
  {
  }

  ghost predicate Exactly(p: seq<nat>, n: nat, picked: set<nat>, chosen: bool) {
    && Increasing(p) && (forall i <- p :: i < n)
    && forall i: nat | i < n :: i in p <==> (i in picked) == chosen
  }

  lemma {:induction false} EmailsAt(ordered: seq<Scored>, picked: set<nat>, chosen: bool, p: seq<nat>)
    requires Exactly(p, |ordered|, picked, chosen)
    ensures EmailsTaken(EmailsWhere(ordered, picked, chosen), ordered, p)
  {
    if ordered == [] {
      if p != [] {
        HasMember(p);
      }
    } else {
      var n := |ordered| - 1;
      if n in p {
        LastPosition(p, n, picked, chosen);
        EmailsAt(ordered[..n], picked, chosen, p[..|p| - 1]);
        TakenLast(EmailsWhere(ordered[..n], picked, chosen), ordered, p);
      } else {
        EmailsAt(ordered[..n], picked, chosen, p);
        TakenOfPrefix(EmailsWhere(ordered[..n], picked, chosen), ordered, p);
        assert EmailsWhere(ordered[..n], picked, chosen) + [] == EmailsWhere(ordered[..n], picked, chosen);
      }
    }
  }

  lemma LastPosition(p: seq<nat>, n: nat, picked: set<nat>, chosen: bool)
    requires Exactly(p, n + 1, picked, chosen) && n in p
    ensures p[|p| - 1] == n && Exactly(p[..|p| - 1], n, picked, chosen)
  {
    var k :| 0 <= k < |p| && p[k] == n;
    assert p[|p| - 1] in p;
    assert k == |p| - 1;
    forall i: nat
      ensures i in p[..|p| - 1] <==> i in p && i != n
    {
      EarlierMember(p, i);
    }
  }

  // ---------------------------------------------------------------- the ranks

  /** The gap between neighbours is the floor or the ceiling of `m / d`. */
  predicate EvenGap(gap: int, m: nat, d: nat) {
    d > 0 ==> m / d <= gap <= (m + d - 1) / d
  }

  /** `x` is the integer nearest to `num / den`, the even one of two. */
  predicate Nearest(x: nat, num: nat, den: nat) {
    && 2 * num - den <= 2 * (x * den) <= 2 * num + den
    && (2 * (x * den) == 2 * num - den || 2 * (x * den) == 2 * num + den ==> x % 2 == 0)
  }

  /** Rank `x` is slot `k` of evenly spread ones: `k * m / d`, rounded to the nearest. */
  predicate SlotRank(x: nat, k: nat, m: nat, d: nat) {
    Nearest(x, k * m, d)
  }

  /** The positions are spread over ranks 0 to `last` as evenly as integers allow, in `d` steps from the first to the
      last. */
  ghost predicate Spread(p: seq<nat>, d: nat, last: nat) {
    && |p| == d + 1 && p[0] == 0
    && (d > 0 ==> p[d] == last)
    && (forall k: nat | k < d :: EvenGap(p[k + 1] as int - p[k] as int, last, d))
    && (forall k: nat | k <= d :: d > 0 ==> SlotRank(p[k], k, last, d))
  }

  lemma RoundHalfEvenNearest(num: nat, den: nat)
    requires den > 0
    ensures Nearest(RoundHalfEven(num, den), num, den)
  {
    RoundHalfEvenClose(num, den);
    RoundHalfEvenTie(num, num / den, num % den, den);
  }

  lemma RoundHalfEvenTie(num: nat, q: nat, r: nat, den: nat)
    requires den > 0 && q == num / den && r == num % den
    ensures var x := RoundHalfEven(num, den);
            2 * (x * den) == 2 * num - den || 2 * (x * den) == 2 * num + den ==> x % 2 == 0
  {
    Division(num, den);
    assert (q + 1) * den == q * den + den;
  }

  function RankSeq(size: nat, n: nat): (p: seq<nat>)
    requires 1 < size && 0 < n
    ensures |p| == size && forall k: nat | k < size :: p[k] == Rank(k, size, n)
  {
    seq(size, (k: nat) requires k < size => Rank(k, size, n))
  }

  lemma RankGap(k: nat, size: nat, n: nat)
    requires 1 < size < n && k < size - 1
    ensures EvenGap(Rank(k + 1, size, n) as int - Rank(k, size, n) as int, n - 1, size - 1)
  {
    RankStep(k, size, n);
  }

  lemma RankSlot(k: nat, size: nat, n: nat)
    requires 1 < size < n && k <= size - 1
    ensures SlotRank(Rank(k, size, n), k, n - 1, size - 1)
  {
    UnclippedBelow(k, size, n);
    RoundHalfEvenNearest(k * (n - 1), size - 1);
  }

  lemma RanksSpread(size: nat, n: nat)
    requires 1 < size < n
    ensures Spread(RankSeq(size, n), size - 1, n - 1)
  {
    EndRanks(size, n);
    SpreadOf(RankSeq(size, n), size, n);
  }

  lemma SpreadOf(p: seq<nat>, size: nat, n: nat)
    requires 1 < size < n && |p| == size && p[0] == 0 && p[size - 1] == n - 1
    requires forall k: nat | k < size :: p[k] == Rank(k, size, n)
    ensures Spread(p, size - 1, n - 1)
  {
    forall k: nat | k < size - 1
      ensures EvenGap(p[k + 1] as int - p[k] as int, n - 1, size - 1)
    {
      RankGap(k, size, n);
    }
    forall k: nat | k <= size - 1
      ensures SlotRank(p[k], k, n - 1, size - 1)
    {
      RankSlot(k, size, n);
    }
  }

  lemma {:induction false} GapsIncrease(p: seq<nat>, i: nat, j: nat)
    requires i < j < |p| && forall k: nat | k + 1 < |p| :: p[k] < p[k + 1]
    ensures p[i] < p[j]
  {
    if i < j - 1 {
      GapsIncrease(p, i, j - 1);
    }
    assert p[j - 1] < p[j - 1 + 1];
  }

  lemma RanksIncrease(size: nat, n: nat)
    requires 1 < size < n
    ensures Increasing(RankSeq(size, n)) && forall r <- RankSeq(size, n) :: r < n
  {
    var p := RankSeq(size, n);
    forall k: nat | k + 1 < |p|
      ensures p[k] < p[k + 1]
    {
      RankStep(k, size, n);
    }
    forall i, j | 0 <= i < j < |p|
      ensures p[i] < p[j]
    {
      GapsIncrease(p, i, j);
    }
  }

  lemma {:induction false} ImageMembers(size: nat, n: nat, k: nat)
    requires 1 < size && 0 < n && k <= size
    ensures forall r: nat :: r in Image(RankOf(size, n), k) <==> r in RankSeq(size, n)[..k]
  {
    if k > 0 {
      ImageMembers(size, n, k - 1);
      assert RankSeq(size, n)[..k] == RankSeq(size, n)[..k - 1] + [Rank(k - 1, size, n)];
    }
  }

  /** The positions that a sample of `size` among `n` takes. */
  lemma PickedPositions(size: nat, n: nat) returns (p: seq<nat>)
    requires 0 < size < n
    ensures Spread(p, size - 1, n - 1) && Exactly(p, n, PickedRanks(size, n), true)
  {
    if size == 1 {
      p := [0];
    } else {
      p := RankSeq(size, n);
      RanksSpread(size, n);
      RanksIncrease(size, n);
      ImageMembers(size, n, size);
      assert p[..size] == p;
    }
  }

  function AllPositions(n: nat): (p: seq<nat>)
    ensures |p| == n && forall k: nat | k < n :: p[k] == k
  {
    seq(n, (k: nat) requires k < n => k)
  }

  lemma WholeStep(m: nat, k: nat)
    requires m > 0
    ensures EvenGap(1, m, m) && SlotRank(k, k, m, m)
  {
    DivideUnique(m, m, 1, 0);
    DivideUnique(m + m - 1, m, 1, m - 1);
  }

  lemma AllSpread(n: nat)
    requires n > 0
    ensures Spread(AllPositions(n), n - 1, n - 1) && Exactly(AllPositions(n), n, {}, false)
  {
    AllStepsEven(AllPositions(n), n - 1);
    forall r: nat | r < n
      ensures r in AllPositions(n)
    {
      assert AllPositions(n)[r] == r;
    }
  }

  lemma AllStepsEven(p: seq<nat>, m: nat)
    requires |p| == m + 1 && forall k: nat | k <= m :: p[k] == k
    ensures Spread(p, m, m)
  {
    forall k: nat | k < m
      ensures EvenGap(p[k + 1] as int - p[k] as int, m, m)
    {
      WholeStep(m, k);
    }
    forall k: nat | k <= m
      ensures m > 0 ==> SlotRank(p[k], k, m, m)
    {
      if m > 0 {
        WholeStep(m, k);
      }
    }
  }

  // ---------------------------------------------------------------- the sample

  /** Emails of the batch at these ranks of the order of its places. */
  ghost predicate AtRanks(emails: seq<string>, scored: seq<Scored>, order: seq<nat>, p: seq<nat>)
    requires |order| == |scored| && forall k | 0 <= k < |order| :: order[k] < |scored|
  {
    |emails| == |p| && forall k | 0 <= k < |p| :: p[k] < |scored| && emails[k] == scored[order[p[k]]].email
  }

  /** The sample is taken at evenly spread ranks `p` of the stable descending order of the scores, as many as asked for
      between one and all, and the held list at the `others`, in that order. */
  lemma SampleIsSpread(scored: seq<Scored>, sampleSize: int) returns (order: seq<nat>, p: seq<nat>, others: seq<nat>)
    requires scored != []
    ensures StableOrder(order, scored, (s: Scored) => -s.score)
    ensures var size := if sampleSize < 1 then 1 else if sampleSize < |scored| then sampleSize else |scored|;
            Spread(p, size - 1, |scored| - 1)
    ensures Increasing(p) && Increasing(others) && forall r: nat | r < |scored| :: (r in p) != (r in others)
    ensures AtRanks(Sample(scored, sampleSize).0, scored, order, p)
    ensures AtRanks(Sample(scored, sampleSize).1, scored, order, others)
  {
    order := SortByOrder(scored, Descending());
    DescendingOrder(order, scored);
    var ordered, n := SortBy(scored, Descending()), |scored|;
    if Clamp(sampleSize, n) == n {
      p, others := AllPositions(n), [];
      AllSpread(n);
    } else {
      p, others := PartSampled(scored, ordered, order, Clamp(sampleSize, n));
    }
  }

  lemma PartSampled(scored: seq<Scored>, ordered: seq<Scored>, order: seq<nat>, size: nat)
    returns (p: seq<nat>, others: seq<nat>)
    requires |order| == |ordered| == |scored| && 0 < size < |scored|
    requires forall k | 0 <= k < |order| :: order[k] < |scored| && ordered[k] == scored[order[k]]
    ensures Spread(p, size - 1, |scored| - 1)
    ensures Increasing(p) && Increasing(others) && forall r: nat | r < |scored| :: (r in p) != (r in others)
    ensures AtRanks(EmailsWhere(ordered, PickedRanks(size, |scored|), true), scored, order, p)
    ensures AtRanks(EmailsWhere(ordered, PickedRanks(size, |scored|), false), scored, order, others)
  {
    var picked := PickedRanks(size, |scored|);
    p := PickedPositions(size, |scored|);
    others := Positions(|scored|, (i: nat) => i !in picked);
    PositionsAre(|scored|, (i: nat) => i !in picked);
    TakenWhere(scored, ordered, order, picked, true, p);
    TakenWhere(scored, ordered, order, picked, false, others);
  }

  lemma TakenWhere(scored: seq<Scored>, ordered: seq<Scored>, order: seq<nat>, picked: set<nat>, chosen: bool,
                   p: seq<nat>)
    requires |order| == |ordered| == |scored| && Exactly(p, |scored|, picked, chosen)
    requires forall k | 0 <= k < |order| :: order[k] < |scored| && ordered[k] == scored[order[k]]
    ensures AtRanks(EmailsWhere(ordered, picked, chosen), scored, order, p)
  {
    EmailsAt(ordered, picked, chosen, p);
    TakenAtRanks(EmailsWhere(ordered, picked, chosen), scored, ordered, order, p);
  }

  lemma TakenAtRanks(emails: seq<string>, scored: seq<Scored>, ordered: seq<Scored>, order: seq<nat>, p: seq<nat>)
    requires |order| == |ordered| == |scored| && forall k | 0 <= k < |order| :: order[k] < |scored|
    requires forall k | 0 <= k < |order| :: ordered[k] == scored[order[k]]
    requires EmailsTaken(emails, ordered, p)
    ensures AtRanks(emails, scored, order, p)
  {
  }

  lemma DescendingOrder(order: seq<nat>, scored: seq<Scored>)
    requires StableOrder(order, scored, Descending())
    ensures StableOrder(order, scored, (s: Scored) => -s.score)
  {
    forall j, k | 0 <= j < k < |order|
      ensures Precedes(scored, (s: Scored) => -s.score, order[j], order[k])
    {
      assert Precedes(scored, Descending(), order[j], order[k]);
    }
  }
}
