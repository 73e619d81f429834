/** The choice of the canary sample: ranks spread evenly over the risk order. */
module Sampling {
  import opened Sorting

  datatype Scored = Scored(email: string, score: real)

  function Descending(): Scored -> real {
    (s: Scored) => -s.score
  }

  function Emails(scored: seq<Scored>): (r: seq<string>)
    ensures |r| == |scored|
  {
    seq(|scored|, i requires 0 <= i < |scored| => scored[i].email)
  }

  /** `round(num / den)` in exact arithmetic: to the nearest integer, ties to even. */
  function RoundHalfEven(num: nat, den: nat): nat
    requires den > 0
  {
    var q, r := num / den, num % den;
    if 2 * r < den || (2 * r == den && q % 2 == 0) then q else q + 1
  }

  lemma RoundHalfEvenClose(num: nat, den: nat)
    requires den > 0
    ensures 2 * num - den <= 2 * (RoundHalfEven(num, den) * den) <= 2 * num + den
  {
    var q, r := num / den, num % den;
    assert num == q * den + r;
    assert (q + 1) * den == q * den + den;
  }

  lemma MulMonotone(x: int, y: int, d: nat)
    requires x <= y
    ensures x * d <= y * d
  {
  }

  lemma DivideUnique(x: nat, d: nat, q: nat, r: nat)
    requires d > 0 && r < d && x == q * d + r
    ensures x / d == q && x % d == r
  {
    var q' := x / d;
    assert x == q' * d + x % d;
    if q' < q {
      MulMonotone(q' + 1, q, d);
    }
    if q < q' {
      MulMonotone(q + 1, q', d);
    }
  }

  lemma RoundHalfEvenExact(q: nat, den: nat)
    requires den > 0
    ensures RoundHalfEven(q * den, den) == q
  {
    DivideUnique(q * den, den, q, 0);
  }

  /** The `k`-th of `size` sampled ranks among `n`. */
  function Rank(k: nat, size: nat, n: nat): nat
    requires 1 < size && 0 < n
  {
    var rounded := RoundHalfEven(k * (n - 1), size - 1);
    if rounded <= n - 1 then rounded else n - 1
  }

  function Unclipped(k: nat, size: nat, n: nat): nat
    requires 1 < size && 0 < n
  {
    RoundHalfEven(k * (n - 1), size - 1)
  }

  /** An integer within one of the fraction `q + r/d` is its floor or its ceiling; `between` is `gap * d`. */
  lemma FloorOrCeiling(gap: int, q: nat, r: nat, d: nat, between: int, whole: nat)
    requires 0 < r < d && between == gap * d && whole == q * d
    requires whole + r - d <= between <= whole + r + d
    ensures q <= gap <= q + 1
  {
    assert (q - 1) * d == whole - d && (q + 2) * d == whole + d + d;
    if gap < q {
      MulMonotone(gap, q - 1, d);
    }
    if q + 1 < gap {
      MulMonotone(q + 2, gap, d);
    }
  }

  lemma Division(m: nat, d: nat)
    requires 0 < d
    ensures m == (m / d) * d + m % d && m % d < d
  {
  }

  lemma QuotientPositive(m: nat, d: nat)
    requires 0 < d <= m
    ensures 1 <= m / d
  {
  }

  lemma StepBounds(k: nat, m: nat, d: nat)
    requires 0 < d <= m
    ensures var gap := RoundHalfEven((k + 1) * m, d) - RoundHalfEven(k * m, d);
            m / d <= gap <= (if m % d == 0 then m / d else m / d + 1)
  {
    if m % d == 0 {
      assert m == (m / d) * d;
      StepExact(k, m / d, d);
    } else {
      assert (k + 1) * m == k * m + m;
      StepRounded(k * m, m, d);
    }
  }

  /** Neighbouring ranks differ by the floor or the ceiling of the step, which is more than one. */
  lemma UnclippedStep(k: nat, size: nat, n: nat)
    requires 1 < size < n
    ensures var q, r := (n - 1) / (size - 1), (n - 1) % (size - 1);
            && 1 <= q
            && q <= Unclipped(k + 1, size, n) - Unclipped(k, size, n) <= (if r == 0 then q else q + 1)
  {
    QuotientPositive(n - 1, size - 1);
    StepBounds(k, n - 1, size - 1);
  }

  lemma StepRounded(x: nat, m: nat, d: nat)
    requires 0 < d && m % d > 0
    ensures m / d <= RoundHalfEven(x + m, d) - RoundHalfEven(x, d) <= m / d + 1
  {
    RoundHalfEvenClose(x, d);
    RoundHalfEvenClose(x + m, d);
    GapOfMultiples(x, m, d, RoundHalfEven(x, d), RoundHalfEven(x + m, d));
  }

  lemma GapOfMultiples(x: nat, m: nat, d: nat, a: nat, b: nat)
    requires 0 < d && m % d > 0
    requires 2 * x - d <= 2 * (a * d) <= 2 * x + d
    requires 2 * (x + m) - d <= 2 * (b * d) <= 2 * (x + m) + d
    ensures m / d <= b - a <= m / d + 1
  {
    GapBounds(b - a, x, m, d, a * d, b * d, Difference(a, b, d));
  }

  /** `(b - a) * d`, which is `b * d - a * d`. */
  ghost function Difference(a: nat, b: nat, d: nat): (r: int)
    ensures r == (b - a) * d == b * d - a * d
  {
    (b - a) * d
  }

  lemma GapBounds(gap: int, x: nat, m: nat, d: nat, below: nat, above: nat, between: int)
    requires 0 < d && m % d > 0
    requires 2 * x - d <= 2 * below <= 2 * x + d && 2 * (x + m) - d <= 2 * above <= 2 * (x + m) + d
    requires between == gap * d == above - below
    ensures m / d <= gap <= m / d + 1
  {
    Division(m, d);
    NearMultiples(x, m, d, below, above);
    FloorOrCeiling(gap, m / d, m % d, d, between, (m / d) * d);
  }

  lemma NearMultiples(x: nat, m: nat, d: nat, below: nat, above: nat)
    requires 2 * x - d <= 2 * below <= 2 * x + d && 2 * (x + m) - d <= 2 * above <= 2 * (x + m) + d
    ensures m - d <= above - below <= m + d
  {
  }

  lemma StepExact(k: nat, q: nat, d: nat)
    requires d > 0
    ensures RoundHalfEven((k + 1) * (q * d), d) - RoundHalfEven(k * (q * d), d) == q
  {
    assert k * (q * d) == (k * q) * d && (k + 1) * (q * d) == ((k + 1) * q) * d;
    RoundHalfEvenExact(k * q, d);
    RoundHalfEvenExact((k + 1) * q, d);
    assert (k + 1) * q == k * q + q;
  }

  lemma {:induction false} UnclippedBelow(k: nat, size: nat, n: nat)
    requires 1 < size < n && k <= size - 1
    ensures Unclipped(k, size, n) <= n - 1
    ensures k == size - 1 ==> Unclipped(k, size, n) == n - 1
    decreases size - 1 - k
  {
    if k == size - 1 {
      assert k * (n - 1) == (n - 1) * (size - 1);
      RoundHalfEvenExact(n - 1, size - 1);
    } else {
      UnclippedBelow(k + 1, size, n);
      UnclippedStep(k, size, n);
    }
  }

  /** The sampled ranks start at the riskiest address, end at the safest, and are spaced as evenly as integers
      allow; in particular rounding never makes two of them collide. */
  lemma EvenSpread(size: nat, n: nat)
    requires 1 < size < n
    ensures Rank(0, size, n) == 0 && Rank(size - 1, size, n) == n - 1
    ensures forall k | 0 <= k < size - 1 ::
              var gap := Rank(k + 1, size, n) - Rank(k, size, n);
              1 <= (n - 1) / (size - 1) <= gap <= (n - 1 + size - 2) / (size - 1)
  {
    EndRanks(size, n);
    forall k | 0 <= k < size - 1
      ensures var gap := Rank(k + 1, size, n) - Rank(k, size, n);
              1 <= (n - 1) / (size - 1) <= gap <= (n - 1 + size - 2) / (size - 1)
    {
      RankStep(k, size, n);
    }
  }

  lemma EndRanks(size: nat, n: nat)
    requires 1 < size < n
    ensures Rank(0, size, n) == 0 && Rank(size - 1, size, n) == n - 1
  {
    UnclippedBelow(0, size, n);
    UnclippedBelow(size - 1, size, n);
    assert 0 * (n - 1) == 0 * (size - 1);
    RoundHalfEvenExact(0, size - 1);
  }

  lemma RankStep(k: nat, size: nat, n: nat)
    requires 1 < size < n && k < size - 1
    ensures var gap := Rank(k + 1, size, n) - Rank(k, size, n);
            1 <= (n - 1) / (size - 1) <= gap <= (n - 1 + size - 2) / (size - 1)
  {
    UnclippedBelow(k, size, n);
    UnclippedBelow(k + 1, size, n);
    UnclippedStep(k, size, n);
    CeilingDivision(n - 1, size - 1);
  }

  lemma CeilingDivision(m: nat, d: nat)
    requires d > 0
    ensures (m + d - 1) / d == if m % d == 0 then m / d else m / d + 1
  {
    var q, r := m / d, m % d;
    assert m == q * d + r;
    if r == 0 {
      DivideUnique(m + d - 1, d, q, d - 1);
    } else {
      assert (q + 1) * d == q * d + d;
      DivideUnique(m + d - 1, d, q + 1, r - 1);
    }
  }

  // ---------------------------------------------------------------- the sample

  /** The values of `rank` on the first `k` numbers. */
  function Image(rank: nat -> nat, k: nat): set<nat> {
    if k == 0 then {} else Image(rank, k - 1) + {rank(k - 1)}
  }

  function RankOf(size: nat, n: nat): nat -> nat
    requires 1 < size && 0 < n
  {
    (k: nat) => Rank(k, size, n)
  }

  function Ranks(size: nat, n: nat): set<nat>
    requires 1 < size && 0 < n
  {
    Image(RankOf(size, n), size)
  }

  /** Emails of `ordered` at the picked positions, or at the others, in rank order. */
  function EmailsWhere(ordered: seq<Scored>, picked: set<nat>, chosen: bool): seq<string> {
    if ordered == [] then []
    else
      var last := |ordered| - 1;
      EmailsWhere(ordered[..last], picked, chosen) + (if (last in picked) == chosen then [ordered[last].email] else [])
  }

  function Clamp(size: int, n: nat): nat {
    if n == 0 then 0 else if size < 1 then 1 else if size <= n then size else n
  }

  function PickedRanks(size: nat, n: nat): set<nat>
    requires 0 < size && 0 < n
  {
    if size == 1 then {0} else Ranks(size, n)
  }

  function Sample(scored: seq<Scored>, sampleSize: int): (seq<string>, seq<string>) {
    var ordered := SortBy(scored, Descending());
    var size := Clamp(sampleSize, |ordered|);
    if size == |ordered| then (Emails(ordered), [])
    else
      var picked := PickedRanks(size, |ordered|);
      (EmailsWhere(ordered, picked, true), EmailsWhere(ordered, picked, false))
  }

  method ChooseSample(scored: seq<Scored>, sampleSize: int) returns (sample: seq<string>, held: seq<string>)
    ensures (sample, held) == Sample(scored, sampleSize)
  {
    SortByProperties(scored, Descending());
    if scored == [] {
      return [], [];
    }
    var ordered := SortBy(scored, Descending());
    var n := |ordered|;
    var smaller := if sampleSize <= n then sampleSize else n;
    var size: nat := if 1 <= smaller then smaller else 1;
    if size >= n {
      return Emails(ordered), [];
    }
    var picked := PickIndices(size, n);
    sample, held := SplitByIndices(ordered, picked);
  }

  method PickIndices(size: nat, n: nat) returns (picked: set<nat>)
    requires 0 < size < n
    ensures picked == PickedRanks(size, n)
  {
    picked := {0};
    if size > 1 {
      RankZero(size, n);
      for position := 1 to size
        invariant picked == Image(RankOf(size, n), position)
      {
        picked := picked + {Rank(position, size, n)};
      }
    }
    // Fill from the risky end; the spread ranks are distinct, so there is nothing left to fill.
    RanksCounted(size, n);
    picked := FillFromTop(picked, size, n);
    SameSize(PickedRanks(size, n), picked);
  }

  lemma RankZero(size: nat, n: nat)
    requires 1 < size && 0 < n
    ensures Image(RankOf(size, n), 1) == {0}
  {
    assert 0 * (n - 1) == 0 * (size - 1);
    RoundHalfEvenExact(0, size - 1);
    assert Rank(0, size, n) == 0;
  }

  /** Adds the risk order's first ranks until the set is full. */
  method FillFromTop(start: set<nat>, size: nat, n: nat) returns (picked: set<nat>)
    requires |start| <= size
    ensures start <= picked && |picked| <= size
    ensures size <= n ==> |picked| == size
    ensures forall r <- picked :: r in start || (r < n && forall i: nat | i < r :: i in picked)
  {
    picked := start;
    var cursor := 0;
    while |picked| < size && cursor < n
      invariant 0 <= cursor && start <= picked && |picked| <= size && (cursor <= n || picked == start)
      invariant forall i: nat | i < cursor :: i in picked
      invariant forall r <- picked :: r in start || r < cursor
      decreases n - cursor
    {
      picked := picked + {cursor};
      cursor := cursor + 1;
    }
    FirstNumbers(picked, cursor);
  }

  /** A set that holds the first `k` numbers has at least `k` members. */
  lemma {:induction false} FirstNumbers(picked: set<nat>, k: nat)
    requires forall i: nat | i < k :: i in picked
    ensures |picked| >= k
  {
    if k > 0 {
      FirstNumbers(picked - {k - 1}, k - 1);
    }
  }

  method SplitByIndices(ordered: seq<Scored>, picked: set<nat>) returns (sample: seq<string>, held: seq<string>)
    ensures sample == EmailsWhere(ordered, picked, true) && held == EmailsWhere(ordered, picked, false)
  {
    sample, held := [], [];
    for index := 0 to |ordered|
      invariant sample == EmailsWhere(ordered[..index], picked, true)
      invariant held == EmailsWhere(ordered[..index], picked, false)
    {
      assert ordered[..index + 1][..index] == ordered[..index];
      if index in picked {
        sample := sample + [ordered[index].email];
      } else {
        held := held + [ordered[index].email];
      }
    }
    assert ordered[..|ordered|] == ordered;
  }

  lemma SameSize(a: set<nat>, b: set<nat>)
    requires a <= b && |b| <= |a|
    ensures a == b
  {
    assert |b| == |b - a| + |a|;
  }

  /** An increasing function takes `k` values on the first `k` numbers, the first and the last of them included. */
  lemma {:induction false} IncreasingImage(rank: nat -> nat, k: nat)
    requires k > 0 && forall i: nat | i + 1 < k :: rank(i) < rank(i + 1)
    ensures |Image(rank, k)| == k && rank(0) in Image(rank, k)
    ensures forall r <- Image(rank, k) :: r <= rank(k - 1)
  {
    if k > 1 {
      IncreasingImage(rank, k - 1);
      assert rank(k - 2) < rank(k - 2 + 1);
      assert rank(k - 1) !in Image(rank, k - 1);
    }
  }

  lemma RanksBelow(size: nat, n: nat)
    requires 1 < size < n
    ensures |Ranks(size, n)| == size && RankOf(size, n)(0) in Ranks(size, n)
    ensures forall r <- Ranks(size, n) :: r <= RankOf(size, n)(size - 1)
  {
    forall i: nat | i + 1 < size
      ensures RankOf(size, n)(i) < RankOf(size, n)(i + 1)
    {
      RankStep(i, size, n);
    }
    IncreasingImage(RankOf(size, n), size);
  }

  /** Rounding collapses no two slots, and the riskiest and the safest rank are among them. */
  lemma RanksCounted(size: nat, n: nat)
    requires 0 < size < n
    ensures |PickedRanks(size, n)| == size
    ensures 0 in PickedRanks(size, n) && forall r <- PickedRanks(size, n) :: r < n
    ensures size > 1 ==> n - 1 in PickedRanks(size, n)
  {
    if size > 1 {
      EvenSpread(size, n);
      RanksBelow(size, n);
    }
  }

  // ---------------------------------------------------------------- partition

  ghost function Hits(picked: set<nat>, n: nat): nat {
    if n == 0 then 0 else Hits(picked, n - 1) + (if n - 1 in picked then 1 else 0)
  }

  lemma {:induction false} HitsExtend(picked: set<nat>, x: nat, n: nat)
    requires n <= x
    ensures Hits(picked, n) == Hits(picked - {x}, n)
  {
    if n > 0 {
      HitsExtend(picked, x, n - 1);
    }
  }

  lemma {:induction false} HitsAll(picked: set<nat>, n: nat)
    requires forall r <- picked :: r < n
    ensures Hits(picked, n) == |picked|
  {
    if n == 0 {
      assert picked == {};
    } else if n - 1 in picked {
      HitsExtend(picked, n - 1, n - 1);
      HitsAll(picked - {n - 1}, n - 1);
    } else {
      assert forall r <- picked :: r != n - 1;
      HitsAll(picked, n - 1);
    }
  }

  lemma EmailsNext(ordered: seq<Scored>)
    requires ordered != []
    ensures Emails(ordered) == Emails(ordered[..|ordered| - 1]) + [ordered[|ordered| - 1].email]
  {
  }

  lemma {:induction false} EmailsWherePartition(ordered: seq<Scored>, picked: set<nat>)
    ensures multiset(EmailsWhere(ordered, picked, true)) + multiset(EmailsWhere(ordered, picked, false))
         == multiset(Emails(ordered))
  {
    if ordered != [] {
      var last := |ordered| - 1;
      EmailsWherePartition(ordered[..last], picked);
      EmailsNext(ordered);
      OneMore(EmailsWhere(ordered[..last], picked, true), EmailsWhere(ordered[..last], picked, false),
              Emails(ordered[..last]), ordered[last].email, last in picked);
    }
  }

  lemma OneMore(a: seq<string>, b: seq<string>, all: seq<string>, email: string, first: bool)
    requires multiset(a) + multiset(b) == multiset(all)
    ensures multiset(a + (if first == true then [email] else []))
          + multiset(b + (if first == false then [email] else [])) == multiset(all + [email])
  {
    assert a + [] == a && b + [] == b;
  }

  lemma {:induction false} EmailsWhereLength(ordered: seq<Scored>, picked: set<nat>)
    ensures |EmailsWhere(ordered, picked, true)| == Hits(picked, |ordered|)
  {
    if ordered != [] {
      EmailsWhereLength(ordered[..|ordered| - 1], picked);
    }
  }

  lemma {:induction false} InsertedEmails(x: Scored, s: seq<Scored>)
    ensures multiset(Emails(InsertBy(x, s, Descending()))) == multiset{x.email} + multiset(Emails(s))
  {
    if s == [] || Descending()(x) <= Descending()(s[0]) {
      assert Emails([x] + s) == [x.email] + Emails(s);
    } else {
      var rest := InsertBy(x, s[1..], Descending());
      InsertedEmails(x, s[1..]);
      assert Emails([s[0]] + rest) == [s[0].email] + Emails(rest);
      assert Emails(s) == [s[0].email] + Emails(s[1..]);
    }
  }

  lemma {:induction false} SortedEmails(s: seq<Scored>)
    ensures multiset(Emails(SortBy(s, Descending()))) == multiset(Emails(s))
  {
    if s != [] {
      SortedEmails(s[1..]);
      InsertedEmails(s[0], SortBy(s[1..], Descending()));
      assert Emails(s) == [s[0].email] + Emails(s[1..]);
    }
  }

  /** For every batch and every requested size, sample and remainder partition the batch, and the sample has
      exactly the clamped size. */
  lemma SamplePartitions(scored: seq<Scored>, sampleSize: int)
    ensures var (sample, held) := Sample(scored, sampleSize);
            && multiset(sample) + multiset(held) == multiset(Emails(scored))
            && |sample| == Clamp(sampleSize, |scored|)
  {
    SortByProperties(scored, Descending());
    SortedEmails(scored);
    var ordered := SortBy(scored, Descending());
    var size := Clamp(sampleSize, |ordered|);
    if size < |ordered| {
      RanksCounted(size, |ordered|);
      HitsAll(PickedRanks(size, |ordered|), |ordered|);
      EmailsWherePartition(ordered, PickedRanks(size, |ordered|));
      EmailsWhereLength(ordered, PickedRanks(size, |ordered|));
    }
  }

  lemma {:induction false} EmailsWhereHas(ordered: seq<Scored>, picked: set<nat>, i: nat)
    requires i < |ordered| && i in picked
    ensures ordered[i].email in EmailsWhere(ordered, picked, true)
  {
    var last := |ordered| - 1;
    if i < last {
      EmailsWhereHas(ordered[..last], picked, i);
    }
  }

  /** The first and, from two addresses on, the last of the risk order are in the sample. */
  lemma EndsSampled(scored: seq<Scored>, sampleSize: int, i: nat)
    requires i < |SortBy(scored, Descending())| == |scored|
    requires i == 0 || (i == |scored| - 1 && Clamp(sampleSize, |scored|) > 1)
    ensures SortBy(scored, Descending())[i].email in Sample(scored, sampleSize).0
  {
    var ordered := SortBy(scored, Descending());
    var n, size := |ordered|, Clamp(sampleSize, |ordered|);
    if size < n {
      RanksCounted(size, n);
      EmailsWhereHas(ordered, PickedRanks(size, n), i);
    } else {
      assert Emails(ordered)[i] == ordered[i].email;
    }
  }

  /** The sample always tries a riskiest address, and from two addresses on a safest one too. */
  lemma ExtremesSampled(scored: seq<Scored>, sampleSize: int)
    requires scored != []
    ensures exists a <- scored :: IsSampled(a, scored, sampleSize) && forall b <- scored :: b.score <= a.score
    ensures Clamp(sampleSize, |scored|) > 1 ==>
              exists a <- scored :: IsSampled(a, scored, sampleSize) && forall b <- scored :: a.score <= b.score
  {
    var riskiest := EndTried(scored, sampleSize, 0);
    if Clamp(sampleSize, |scored|) > 1 {
      var safest := EndTried(scored, sampleSize, |scored| - 1);
    }
  }

  predicate IsSampled(a: Scored, scored: seq<Scored>, sampleSize: int) {
    a.email in Sample(scored, sampleSize).0
  }

  lemma EndTried(scored: seq<Scored>, sampleSize: int, i: nat) returns (a: Scored)
    requires i < |scored| && (i == 0 || (i == |scored| - 1 && Clamp(sampleSize, |scored|) > 1))
    ensures a in scored && IsSampled(a, scored, sampleSize)
    ensures i == 0 ==> forall b <- scored :: b.score <= a.score
    ensures i == |scored| - 1 ==> forall b <- scored :: a.score <= b.score
  {
    var ordered := SortBy(scored, Descending());
    SortByProperties(scored, Descending());
    SortedMembers(scored, ordered);
    EndsSampled(scored, sampleSize, i);
    a := ordered[i];
  }

  lemma SortedMembers(scored: seq<Scored>, ordered: seq<Scored>)
    requires multiset(ordered) == multiset(scored) && SortedBy(ordered, Descending())
    ensures forall a :: a in ordered <==> a in scored
    ensures ordered != [] ==> forall b <- scored :: ordered[|ordered| - 1].score <= b.score <= ordered[0].score
  {
    forall a
      ensures a in ordered <==> a in scored
    {
      assert a in ordered <==> a in multiset(ordered);
      assert a in scored <==> a in multiset(scored);
    }
    forall b <- scored | ordered != []
      ensures ordered[|ordered| - 1].score <= b.score <= ordered[0].score
    {
      var i :| 0 <= i < |ordered| && ordered[i] == b;
      assert Descending()(ordered[0]) <= Descending()(ordered[i]) <= Descending()(ordered[|ordered| - 1]) by {
        assert i == 0 || i == |ordered| - 1 || 0 < i < |ordered| - 1;
      }
    }
  }
}
