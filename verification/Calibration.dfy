/** The reliability diagram and the Brier score, before rounding for display. */
module Calibration {
  import opened Wrappers
  import opened Sequences
  import opened Arithmetic

  datatype Observation = Observation(score: real, bounced: bool)

  function Outcome(o: Observation): real {
    if o.bounced then 1.0 else 0.0
  }

  function Square(x: real): real {
    x * x
  }

  function Sum(os: seq<Observation>, f: Observation -> real): real {
    if os == [] then 0.0 else Sum(os[..|os| - 1], f) + f(os[|os| - 1])
  }

  function ScoreOf(): Observation -> real {
    (o: Observation) => o.score
  }

  function OutcomeOf(): Observation -> real {
    (o: Observation) => Outcome(o)
  }

  function SquaredError(): Observation -> real {
    (o: Observation) => Square(o.score - Outcome(o))
  }

  function Gap(): Observation -> real {
    (o: Observation) => o.score - Outcome(o)
  }

  /** Which bins a score belongs to. */
  type Binning = (nat, real) -> bool

  /** Half-open intervals of equal width, with the score 1 in the last one. */
  predicate InBin(score: real, index: nat, binCount: nat)
    requires index < binCount
  {
    var width := 1.0 / binCount as real;
    var lower := index as real * width;
    var upper := lower + width;
    lower <= score < upper || (index == binCount - 1 && score == 1.0)
  }

  function EqualWidth(binCount: nat): Binning {
    (index: nat, score) => index < binCount && InBin(score, index, binCount)
  }

  function Members(os: seq<Observation>, index: nat, binning: Binning): seq<Observation> {
    if os == [] then []
    else
      var last := os[|os| - 1];
      Members(os[..|os| - 1], index, binning) + (if binning(index, last.score) then [last] else [])
  }

  datatype Bin = Bin(index: nat, count: nat, predictedMean: real, observedRate: real)

  datatype Report = Report(brier: real, meanPredicted: real, observedRate: real, bins: seq<Bin>)

  function Mean(members: seq<Observation>, f: Observation -> real): real
    requires members != []
  {
    Sum(members, f) / |members| as real
  }

  function BinOf(members: seq<Observation>, index: nat): seq<Bin> {
    if members == [] then []
    else [Bin(index, |members|, Mean(members, ScoreOf()), Mean(members, OutcomeOf()))]
  }

  function Bins(os: seq<Observation>, upTo: nat, binning: Binning): seq<Bin> {
    if upTo == 0 then [] else Bins(os, upTo - 1, binning) + BinOf(Members(os, upTo - 1, binning), upTo - 1)
  }

  function Summarize(os: seq<Observation>, binCount: nat, binning: Binning): Report
    requires os != []
  {
    var n := |os| as real;
    Report(Sum(os, SquaredError()) / n, Sum(os, ScoreOf()) / n, Sum(os, OutcomeOf()) / n, Bins(os, binCount, binning))
  }

  /** Without observations there is nothing to report: the sample size is zero and every mean is absent. */
  method CalibrationReport(os: seq<Observation>, binCount: nat) returns (report: Option<Report>)
    requires os != [] ==> binCount > 0
    ensures report == if os == [] then None else Some(Summarize(os, binCount, EqualWidth(binCount)))
  {
    if os == [] {
      return None;
    }
    var brier, predicted, observed := 0.0, 0.0, 0.0;
    for i := 0 to |os|
      invariant brier == Sum(os[..i], SquaredError())
      invariant predicted == Sum(os[..i], ScoreOf()) && observed == Sum(os[..i], OutcomeOf())
    {
      assert os[..i + 1][..i] == os[..i];
      var outcome := if os[i].bounced then 1.0 else 0.0;
      brier := brier + (os[i].score - outcome) * (os[i].score - outcome);
      predicted := predicted + os[i].score;
      observed := observed + outcome;
    }
    assert os[..|os|] == os;
    var bins := CollectBins(os, binCount, EqualWidth(binCount));
    var n := |os| as real;
    return Some(Report(brier / n, predicted / n, observed / n, bins));
  }

  lemma BinsNext(os: seq<Observation>, index: nat, binning: Binning)
    ensures Bins(os, index + 1, binning) == Bins(os, index, binning) + BinOf(Members(os, index, binning), index)
  {
  }

  method CollectBins(os: seq<Observation>, binCount: nat, binning: Binning) returns (bins: seq<Bin>)
    ensures bins == Bins(os, binCount, binning)
  {
    bins := [];
    for index := 0 to binCount
      invariant bins == Bins(os, index, binning)
    {
      var members := Members(os, index, binning);
      BinsNext(os, index, binning);
      if members == [] {
        continue;
      }
      bins := bins + [Bin(index, |members|, Mean(members, ScoreOf()), Mean(members, OutcomeOf()))];
    }
  }

  // ---------------------------------------------------------------- each score has one bin

  function BinIndex(score: real, binCount: nat): nat
    requires binCount > 0 && 0.0 <= score <= 1.0
  {
    ScaledNonNegative(score, binCount);
    if score == 1.0 then binCount - 1 else (score * binCount as real).Floor
  }

  lemma ScaledNonNegative(score: real, binCount: nat)
    requires 0.0 <= score
    ensures 0.0 <= score * binCount as real
  {
  }

  lemma MulOrder(a: real, b: real, k: real)
    requires k > 0.0
    ensures a <= b <==> a * k <= b * k
    ensures a < b <==> a * k < b * k
  {
    if a < b {
      assert (b - a) * k > 0.0;
    } else if b < a {
      assert (a - b) * k > 0.0;
    }
  }

  /** `index / binCount <= score` without the division. */
  lemma BinBounds(score: real, index: nat, binCount: nat)
    requires index < binCount
    ensures InBin(score, index, binCount) <==>
              || index as real <= score * binCount as real < index as real + 1.0
              || (index == binCount - 1 && score == 1.0)
  {
    var b := binCount as real;
    var width := 1.0 / b;
    assert width * b == 1.0;
    var lower := index as real * width;
    var upper := lower + width;
    assert lower * b == index as real * (width * b);
    assert upper * b == lower * b + width * b;
    MulOrder(lower, score, b);
    MulOrder(score, upper, b);
  }

  lemma BinIndexBelow(score: real, binCount: nat)
    requires binCount > 0 && 0.0 <= score <= 1.0
    ensures BinIndex(score, binCount) < binCount
  {
    if score < 1.0 {
      var scaled := score * binCount as real;
      MulOrder(score, 1.0, binCount as real);
      ScaledNonNegative(score, binCount);
      assert scaled < binCount as real;
      assert scaled.Floor as real <= scaled;
    }
  }

  lemma InRangeIfInBin(score: real, index: nat, binCount: nat)
    requires index < binCount && InBin(score, index, binCount)
    ensures 0.0 <= score <= 1.0
  {
    BinBounds(score, index, binCount);
    MulOrder(0.0, score, binCount as real);
    MulOrder(score, 1.0, binCount as real);
  }

  lemma InBinIff(score: real, index: nat, binCount: nat)
    requires index < binCount && 0.0 <= score <= 1.0
    ensures InBin(score, index, binCount) <==> index == BinIndex(score, binCount)
  {
    BinBounds(score, index, binCount);
    MulOrder(score, 1.0, binCount as real);
  }

  /** A score lies in some bin exactly when it is between 0 and 1, and then in only one. */
  lemma OneBin(score: real, binCount: nat)
    requires binCount > 0
    ensures (exists index :: 0 <= index < binCount && InBin(score, index, binCount)) <==> 0.0 <= score <= 1.0
    ensures 0.0 <= score <= 1.0 ==>
              && BinIndex(score, binCount) < binCount
              && forall index | 0 <= index < binCount ::
                   InBin(score, index, binCount) <==> index == BinIndex(score, binCount)
  {
    forall index | 0 <= index < binCount && InBin(score, index, binCount)
      ensures 0.0 <= score <= 1.0
    {
      InRangeIfInBin(score, index, binCount);
    }
    if 0.0 <= score <= 1.0 {
      BinIndexBelow(score, binCount);
      forall index | 0 <= index < binCount
        ensures InBin(score, index, binCount) <==> index == BinIndex(score, binCount)
      {
        InBinIff(score, index, binCount);
      }
      assert InBin(score, BinIndex(score, binCount), binCount);
    }
  }

  // ---------------------------------------------------------------- the bins partition the observations

  predicate InRange(o: Observation) {
    0.0 <= o.score <= 1.0
  }

  /** Scores between 0 and 1, and no others, have a bin, which `bin` finds. */
  ghost predicate Partitions(binning: Binning, binCount: nat, bin: real -> nat) {
    && (forall score: real :: 0.0 <= score <= 1.0 ==> bin(score) < binCount)
    && (forall score: real, index: nat | index < binCount ::
          binning(index, score) <==> 0.0 <= score <= 1.0 && index == bin(score))
  }

  lemma EqualWidthPartitions(binCount: nat) returns (bin: real -> nat)
    requires binCount > 0
    ensures Partitions(EqualWidth(binCount), binCount, bin)
  {
    bin := score => if 0.0 <= score <= 1.0 then BinIndex(score, binCount) else 0;
    forall score: real | 0.0 <= score <= 1.0
      ensures bin(score) < binCount
    {
      OneBin(score, binCount);
    }
    forall score: real, index: nat | index < binCount
      ensures EqualWidth(binCount)(index, score) <==> 0.0 <= score <= 1.0 && index == bin(score)
    {
      OneBin(score, binCount);
    }
  }

  ghost function SumTo(part: nat -> real, upTo: nat): real {
    if upTo == 0 then 0.0 else SumTo(part, upTo - 1) + part(upTo - 1)
  }

  ghost function PerBin(os: seq<Observation>, binning: Binning, f: Observation -> real): nat -> real {
    (index: nat) => Sum(Members(os, index, binning), f)
  }

  /** The sum of `f` over the members of the first `upTo` bins. */
  ghost function BinSum(os: seq<Observation>, upTo: nat, binning: Binning, f: Observation -> real): real {
    SumTo(PerBin(os, binning, f), upTo)
  }

  ghost function RangeSum(os: seq<Observation>, f: Observation -> real): real {
    if os == [] then 0.0 else RangeSum(os[..|os| - 1], f) + (if InRange(os[|os| - 1]) then f(os[|os| - 1]) else 0.0)
  }

  lemma SumAppend(os: seq<Observation>, o: Observation, f: Observation -> real)
    ensures Sum(os + [o], f) == Sum(os, f) + f(o)
  {
    assert (os + [o])[..|os|] == os;
  }

  lemma {:induction false} SumToChanged(p: nat -> real, q: nat -> real, upTo: nat, at: nat, x: real)
    requires forall i | 0 <= i < upTo :: p(i) == q(i) + (if i == at then x else 0.0)
    ensures SumTo(p, upTo) == SumTo(q, upTo) + (if at < upTo then x else 0.0)
  {
    if upTo > 0 {
      SumToChanged(p, q, upTo - 1, at, x);
    }
  }

  lemma {:induction false} SumToZero(p: nat -> real, upTo: nat)
    requires forall i | 0 <= i < upTo :: p(i) == 0.0
    ensures SumTo(p, upTo) == 0.0
  {
    if upTo > 0 {
      SumToZero(p, upTo - 1);
    }
  }

  lemma MembersStep(os: seq<Observation>, index: nat, binning: Binning, f: Observation -> real,
                    binCount: nat, bin: real -> nat)
    requires os != [] && index < binCount && Partitions(binning, binCount, bin)
    ensures var last := os[|os| - 1];
            Sum(Members(os, index, binning), f) == Sum(Members(os[..|os| - 1], index, binning), f)
              + (if InRange(last) && bin(last.score) == index then f(last) else 0.0)
  {
    var last := os[|os| - 1];
    var before := Members(os[..|os| - 1], index, binning);
    assert binning(index, last.score) <==> InRange(last) && index == bin(last.score);
    if binning(index, last.score) {
      SumAppend(before, last, f);
    } else {
      assert Members(os, index, binning) == before;
    }
  }

  /** Summing over the bins is summing over the observations with a score between 0 and 1. */
  lemma {:induction false} BinsPartition(os: seq<Observation>, binning: Binning, f: Observation -> real,
                                         binCount: nat, bin: real -> nat)
    requires Partitions(binning, binCount, bin)
    ensures BinSum(os, binCount, binning, f) == RangeSum(os, f)
  {
    if os == [] {
      SumToZero(PerBin(os, binning, f), binCount);
    } else {
      var last, before := os[|os| - 1], os[..|os| - 1];
      BinsPartition(before, binning, f, binCount, bin);
      forall i: nat | i < binCount
        ensures PerBin(os, binning, f)(i)
             == PerBin(before, binning, f)(i)
                  + (if i == bin(last.score) then (if InRange(last) then f(last) else 0.0) else 0.0)
      {
        MembersStep(os, i, binning, f, binCount, bin);
      }
      SumToChanged(PerBin(os, binning, f), PerBin(before, binning, f), binCount,
                   bin(last.score), if InRange(last) then f(last) else 0.0);
    }
  }

  lemma {:induction false} RangeSumAll(os: seq<Observation>, f: Observation -> real)
    requires forall o <- os :: InRange(o)
    ensures RangeSum(os, f) == Sum(os, f)
  {
    if os != [] {
      assert forall o <- os[..|os| - 1] :: o in os;
      assert os[|os| - 1] in os;
      RangeSumAll(os[..|os| - 1], f);
    }
  }

  function One(): Observation -> real {
    (o: Observation) => 1.0
  }

  lemma {:induction false} SumOne(os: seq<Observation>)
    ensures Sum(os, One()) == |os| as real
  {
    if os != [] {
      SumOne(os[..|os| - 1]);
    }
  }

  lemma {:induction false} RangeCount(os: seq<Observation>)
    ensures RangeSum(os, One()) <= |os| as real
    ensures RangeSum(os, One()) == |os| as real <==> forall o <- os :: InRange(o)
  {
    if os != [] {
      RangeCount(os[..|os| - 1]);
      assert forall o <- os :: o in os[..|os| - 1] || o == os[|os| - 1];
      assert forall o <- os[..|os| - 1] :: o in os;
      assert os[|os| - 1] in os;
    }
  }

  // ---------------------------------------------------------------- the diagram of the report

  function Counts(bins: seq<Bin>): nat {
    if bins == [] then 0 else Counts(bins[..|bins| - 1]) + bins[|bins| - 1].count
  }

  /** The count-weighted sum of a quantity over the reported bins. */
  function Weighted(bins: seq<Bin>, g: Bin -> real): real {
    if bins == [] then 0.0
    else Weighted(bins[..|bins| - 1], g) + Times(bins[|bins| - 1].count, g(bins[|bins| - 1]))
  }

  function PredictedMean(): Bin -> real {
    (b: Bin) => b.predictedMean
  }

  function ObservedRate(): Bin -> real {
    (b: Bin) => b.observedRate
  }

  function SquaredGap(): Bin -> real {
    (b: Bin) => Square(b.predictedMean - b.observedRate)
  }

  /** On every bin, `count` times `g` is the sum of `f` over its members. */
  ghost predicate Averages(g: Bin -> real, f: Observation -> real) {
    forall members: seq<Observation>, index: nat | members != [] ::
      Times(|members|, g(BinOf(members, index)[0])) == Sum(members, f)
  }

  ghost predicate AveragesAtMost(g: Bin -> real, f: Observation -> real) {
    forall members: seq<Observation>, index: nat | members != [] ::
      Times(|members|, g(BinOf(members, index)[0])) <= Sum(members, f)
  }

  lemma BinSumNext(os: seq<Observation>, index: nat, binning: Binning, f: Observation -> real)
    ensures BinSum(os, index + 1, binning, f) == BinSum(os, index, binning, f) + Sum(Members(os, index, binning), f)
  {
  }

  lemma WeightedNext(os: seq<Observation>, index: nat, binning: Binning, g: Bin -> real)
    ensures var members := Members(os, index, binning);
            Weighted(Bins(os, index + 1, binning), g) == Weighted(Bins(os, index, binning), g)
              + (if members == [] then 0.0 else Times(|members|, g(BinOf(members, index)[0])))
  {
    var before, members := Bins(os, index, binning), Members(os, index, binning);
    if members != [] {
      WeightedAppend(before, BinOf(members, index)[0], g);
    } else {
      assert Bins(os, index + 1, binning) == before;
    }
  }

  lemma {:induction false} WeightedBins(os: seq<Observation>, upTo: nat, binning: Binning,
                                        g: Bin -> real, f: Observation -> real)
    requires AveragesAtMost(g, f)
    ensures Weighted(Bins(os, upTo, binning), g) <= BinSum(os, upTo, binning, f)
    ensures Averages(g, f) ==> Weighted(Bins(os, upTo, binning), g) == BinSum(os, upTo, binning, f)
  {
    if upTo > 0 {
      var index: nat := upTo - 1;
      WeightedBins(os, index, binning, g, f);
      BinSumNext(os, index, binning, f);
      WeightedNext(os, index, binning, g);
    }
  }

  lemma WeightedAppend(bins: seq<Bin>, bin: Bin, g: Bin -> real)
    ensures Weighted(bins + [bin], g) == Weighted(bins, g) + Times(bin.count, g(bin))
  {
    assert (bins + [bin])[..|bins|] == bins;
  }

  lemma {:induction false} CountedBins(os: seq<Observation>, upTo: nat, binning: Binning)
    ensures Counts(Bins(os, upTo, binning)) as real == BinSum(os, upTo, binning, One())
  {
    if upTo > 0 {
      var index: nat := upTo - 1;
      CountedBins(os, index, binning);
      CountsNext(os, index, binning);
      BinSumNext(os, index, binning, One());
      SumOne(Members(os, index, binning));
    }
  }

  lemma CountsNext(os: seq<Observation>, index: nat, binning: Binning)
    ensures Counts(Bins(os, index + 1, binning))
         == Counts(Bins(os, index, binning)) + |Members(os, index, binning)|
  {
    var before, members := Bins(os, index, binning), Members(os, index, binning);
    if members != [] {
      CountsAppend(before, BinOf(members, index)[0]);
    } else {
      assert Bins(os, index + 1, binning) == before;
    }
  }

  lemma CountsAppend(bins: seq<Bin>, bin: Bin)
    ensures Counts(bins + [bin]) == Counts(bins) + bin.count
  {
    assert (bins + [bin])[..|bins|] == bins;
  }

  lemma MeansAverage()
    ensures Averages(PredictedMean(), ScoreOf()) && Averages(ObservedRate(), OutcomeOf())
    ensures AveragesAtMost(SquaredGap(), SquaredError())
  {
    forall members: seq<Observation>, index: nat | members != []
      ensures Times(|members|, PredictedMean()(BinOf(members, index)[0])) == Sum(members, ScoreOf())
      ensures Times(|members|, ObservedRate()(BinOf(members, index)[0])) == Sum(members, OutcomeOf())
      ensures Times(|members|, SquaredGap()(BinOf(members, index)[0])) <= Sum(members, SquaredError())
    {
      BinMeans(members, index);
    }
  }

  lemma BinMeans(members: seq<Observation>, index: nat)
    requires members != []
    ensures var bin := BinOf(members, index)[0];
            && Times(|members|, PredictedMean()(bin)) == Sum(members, ScoreOf())
            && Times(|members|, ObservedRate()(bin)) == Sum(members, OutcomeOf())
            && Times(|members|, SquaredGap()(bin)) <= Sum(members, SquaredError())
  {
    var bin := BinOf(members, index)[0];
    MeansOf(members, bin.predictedMean, bin.observedRate);
  }

  lemma MeansOf(members: seq<Observation>, p: real, o: real)
    requires members != []
    requires p == Sum(members, ScoreOf()) / |members| as real && o == Sum(members, OutcomeOf()) / |members| as real
    ensures Times(|members|, p) == Sum(members, ScoreOf()) && Times(|members|, o) == Sum(members, OutcomeOf())
    ensures Times(|members|, Square(p - o)) <= Sum(members, SquaredError())
  {
    SquaredGapBound(members);
    ScaleMeans(|members|, Sum(members, ScoreOf()), Sum(members, OutcomeOf()), Sum(members, SquaredError()), p, o);
  }

  lemma SquaredGapBound(members: seq<Observation>)
    ensures Square(Sum(members, ScoreOf()) - Sum(members, OutcomeOf()))
         <= |members| as real * Sum(members, SquaredError())
  {
    var gap := Sum(members, ScoreOf()) - Sum(members, OutcomeOf());
    GapSum(members);
    assert Sum(members, Gap()) == gap;
    CauchySchwarz(members);
  }

  lemma ScaleMeans(n: nat, scores: real, outcomes: real, errors: real, p: real, o: real)
    requires n > 0 && p == scores / n as real && o == outcomes / n as real
    requires Square(scores - outcomes) <= n as real * errors
    ensures Times(n, p) == scores && Times(n, o) == outcomes && Times(n, Square(p - o)) <= errors
  {
    TimesIsProduct(n, p);
    TimesIsProduct(n, o);
    TimesIsProduct(n, Square(p - o));
    Rescale(scores, n as real, p);
    Rescale(outcomes, n as real, o);
    GapScaled(n as real, p, o);
    ScaledSquare(n as real, p - o, errors);
  }

  lemma Rescale(x: real, n: real, mean: real)
    requires n > 0.0 && mean == x / n
    ensures n * mean == x
  {
  }

  lemma GapScaled(n: real, p: real, o: real)
    ensures n * (p - o) == n * p - n * o
  {
  }

  lemma ScaledSquare(n: real, x: real, q: real)
    requires n > 0.0 && Square(n * x) <= n * q
    ensures n * Square(x) <= q
  {
    assert Square(n * x) == n * (n * Square(x));
    MulOrder(n * Square(x), q, n);
  }

  lemma {:induction false} GapSum(os: seq<Observation>)
    ensures Sum(os, Gap()) == Sum(os, ScoreOf()) - Sum(os, OutcomeOf())
  {
    if os != [] {
      GapSum(os[..|os| - 1]);
    }
  }

  /** The squared sum of the gaps is at most their number times the sum of their squares. */
  lemma {:induction false} CauchySchwarz(os: seq<Observation>)
    ensures Square(Sum(os, Gap())) <= |os| as real * Sum(os, SquaredError())
  {
    if os != [] {
      var n := |os| - 1;
      CauchySchwarz(os[..n]);
      var x := Gap()(os[n]);
      assert SquaredError()(os[n]) == Square(x);
      OneMoreTerm(n, Sum(os[..n], Gap()), Sum(os[..n], SquaredError()), x);
      assert n as real + 1.0 == |os| as real;
    }
  }

  lemma OneMoreTerm(n: nat, s: real, q: real, x: real)
    requires Square(s) <= n as real * q && (n == 0 ==> s == 0.0 && q == 0.0)
    ensures Square(s + x) <= (n as real + 1.0) * (q + Square(x))
  {
    var k := n as real;
    assert Square(s + x) == Square(s) + 2.0 * (s * x) + Square(x);
    assert (k + 1.0) * (q + Square(x)) == k * q + k * Square(x) + q + Square(x);
    if n > 0 {
      // k * (k x^2 + q - 2 s x) >= (k x - s)^2 >= 0
      assert Square(k * x - s) >= 0.0;
      assert Square(k * x - s) == k * (k * Square(x)) - 2.0 * (k * (s * x)) + Square(s);
      var slack := k * Square(x) + q - 2.0 * (s * x);
      assert k * slack == k * (k * Square(x)) + k * q - 2.0 * (k * (s * x));
      MulOrder(0.0, slack, k);
    }
  }

  lemma {:induction false} RangeErrorBelow(os: seq<Observation>)
    ensures RangeSum(os, SquaredError()) <= Sum(os, SquaredError())
  {
    if os != [] {
      RangeErrorBelow(os[..|os| - 1]);
      assert SquaredError()(os[|os| - 1]) >= 0.0;
    }
  }

  /** The bins hold every observation exactly when all scores are between 0 and 1; then bin means recombine to
      the overall means. The miscalibration the diagram shows never exceeds the Brier score. */
  lemma ReportSound(os: seq<Observation>, binCount: nat)
    requires binCount > 0 && os != []
    ensures var report := Summarize(os, binCount, EqualWidth(binCount));
            var n := |os| as real;
            && Counts(report.bins) <= |os|
            && (Counts(report.bins) == |os| <==> forall o <- os :: InRange(o))
            && ((forall o <- os :: InRange(o)) ==>
                  Weighted(report.bins, PredictedMean()) / n == report.meanPredicted &&
                  Weighted(report.bins, ObservedRate()) / n == report.observedRate)
            && Weighted(report.bins, SquaredGap()) / n <= report.brier
  {
    var bin := EqualWidthPartitions(binCount);
    DiagramSound(os, binCount, EqualWidth(binCount), bin);
    var gaps := Weighted(Bins(os, binCount, EqualWidth(binCount)), SquaredGap());
    DivideOrder(gaps, Sum(os, SquaredError()), |os| as real);
  }

  /** An observation whose score is outside the unit interval, alone in its report, is in none of the bins. */
  lemma OutsideScoreLost(score: real, bounced: bool, binCount: nat)
    requires binCount > 0 && !(0.0 <= score <= 1.0)
    ensures var os := [Observation(score, bounced)];
            Counts(Summarize(os, binCount, EqualWidth(binCount)).bins) == 0
  {
    var os := [Observation(score, bounced)];
    assert !InRange(os[0]);
    ReportSound(os, binCount);
  }

  lemma DivideOrder(x: real, y: real, n: real)
    requires x <= y && n > 0.0
    ensures x / n <= y / n
  {
    var p, q := x / n, y / n;
    assert p * n == x && q * n == y;
    MulOrder(p, q, n);
  }

  lemma DiagramSound(os: seq<Observation>, binCount: nat, binning: Binning, bin: real -> nat)
    requires Partitions(binning, binCount, bin)
    ensures var bins := Bins(os, binCount, binning);
            && Counts(bins) <= |os|
            && (Counts(bins) == |os| <==> forall o <- os :: InRange(o))
            && ((forall o <- os :: InRange(o)) ==>
                  Weighted(bins, PredictedMean()) == Sum(os, ScoreOf()) &&
                  Weighted(bins, ObservedRate()) == Sum(os, OutcomeOf()))
            && Weighted(bins, SquaredGap()) <= Sum(os, SquaredError())
  {
    CountedBins(os, binCount, binning);
    BinsPartition(os, binning, One(), binCount, bin);
    RangeCount(os);
    MeansAverage();
    WeightedBins(os, binCount, binning, SquaredGap(), SquaredError());
    BinsPartition(os, binning, SquaredError(), binCount, bin);
    RangeErrorBelow(os);
    if forall o <- os :: InRange(o) {
      WeightedAll(os, binCount, binning, bin, PredictedMean(), ScoreOf());
      WeightedAll(os, binCount, binning, bin, ObservedRate(), OutcomeOf());
    }
  }

  lemma WeightedAll(os: seq<Observation>, binCount: nat, binning: Binning, bin: real -> nat,
                    g: Bin -> real, f: Observation -> real)
    requires Partitions(binning, binCount, bin) && Averages(g, f)
    requires forall o <- os :: InRange(o)
    ensures Weighted(Bins(os, binCount, binning), g) == Sum(os, f)
  {
    WeightedBins(os, binCount, binning, g, f);
    BinsPartition(os, binning, f, binCount, bin);
    RangeSumAll(os, f);
  }

  // ---------------------------------------------------------------- what the report consists of

  /** The sum over observations is the sum. */
  lemma {:induction false} SumMeans(a: seq<Observation>, b: seq<Observation>, o: Observation, f: Observation -> real)
    ensures Sum([], f) == 0.0 && Sum([o], f) == f(o) && Sum(a + b, f) == Sum(a, f) + Sum(b, f)
    decreases |b|
  {
    assert [o][..0] == [];
    if b == [] {
      assert a + b == a;
    } else {
      var n := |b| - 1;
      SumMeans(a, b[..n], o, f);
      assert (a + b)[..|a| + n] == a + b[..n];
    }
  }

  /** The report of one observation: its score, whether it bounced, and the squared distance between the two. */
  lemma ReportOfOne(score: real, bounced: bool, binCount: nat, binning: Binning)
    ensures var report := Summarize([Observation(score, bounced)], binCount, binning);
            && report.meanPredicted == score
            && report.observedRate == (if bounced then 1.0 else 0.0)
            && report.brier == (if bounced then (1.0 - score) * (1.0 - score) else score * score)
  {
    var o := Observation(score, bounced);
    SumMeans([], [], o, ScoreOf());
    SumMeans([], [], o, OutcomeOf());
    SumMeans([], [], o, SquaredError());
    assert Square(score - Outcome(o)) == if bounced then (1.0 - score) * (1.0 - score) else score * score;
  }

  /** Reports of two samples combine by their sizes. */
  lemma ReportsCombine(a: seq<Observation>, b: seq<Observation>, binCount: nat, binning: Binning)
    requires a != [] && b != []
    ensures var whole, x, y := Summarize(a + b, binCount, binning), Summarize(a, binCount, binning),
                               Summarize(b, binCount, binning);
            && Combines(whole.brier, x.brier, y.brier, |a|, |b|)
            && Combines(whole.meanPredicted, x.meanPredicted, y.meanPredicted, |a|, |b|)
            && Combines(whole.observedRate, x.observedRate, y.observedRate, |a|, |b|)
  {
    MeansCombine(a, b, SquaredError());
    MeansCombine(a, b, ScoreOf());
    MeansCombine(a, b, OutcomeOf());
  }

  /** The mean over `m + n` is the weighted mean. */
  predicate Combines(whole: real, x: real, y: real, m: nat, n: nat) {
    whole * (m + n) as real == x * m as real + y * n as real
  }

  lemma MeansCombine(a: seq<Observation>, b: seq<Observation>, f: Observation -> real)
    requires a != [] && b != []
    ensures Combines(Sum(a + b, f) / |a + b| as real, Sum(a, f) / |a| as real, Sum(b, f) / |b| as real, |a|, |b|)
  {
    SumMeans(a, b, a[0], f);
    Rescaled(Sum(a + b, f), |a + b| as real);
    Rescaled(Sum(a, f), |a| as real);
    Rescaled(Sum(b, f), |b| as real);
  }

  lemma Rescaled(x: real, n: real)
    requires n > 0.0
    ensures x / n * n == x
  {
  }

  /** A bin's members are the observations whose score belongs there, in order. */
  lemma {:induction false} MembersKept(os: seq<Observation>, index: nat, binning: Binning)
    ensures Kept(Members(os, index, binning), os, (o: Observation) => binning(index, o.score))
  {
    var test := (o: Observation) => binning(index, o.score);
    if os == [] {
      KeptNothing<Observation>(test);
    } else {
      var n := |os| - 1;
      MembersKept(os[..n], index, binning);
      KeptNext(Members(os[..n], index, binning), os[..n], test, os[n]);
      assert os == os[..n] + [os[n]];
    }
  }

  ghost predicate ReportedAs(os: seq<Observation>, binning: Binning, index: nat, bin: Bin) {
    Members(os, index, binning) != [] && bin == BinOf(Members(os, index, binning), index)[0]
  }

  function Listed<T>(upTo: nat, entry: nat -> seq<T>): seq<T> {
    if upTo == 0 then [] else Listed(upTo - 1, entry) + entry(upTo - 1)
  }

  lemma {:induction false} ListedAt<T>(upTo: nat, entry: nat -> seq<T>) returns (p: seq<nat>)
    requires forall index :: |entry(index)| <= 1
    ensures Increasing(p) && |Listed(upTo, entry)| == |p|
    ensures forall index: nat :: index in p <==> index < upTo && entry(index) != []
    ensures forall k | 0 <= k < |p| :: entry(p[k]) == [Listed(upTo, entry)[k]]
  {
    if upTo == 0 {
      p := [];
    } else {
      p := ListedAt(upTo - 1, entry);
      if entry(upTo - 1) != [] {
        IncreasingNext(p, upTo - 1);
        p := p + [upTo - 1];
      }
    }
  }

  lemma {:induction false} BinsAreListed(os: seq<Observation>, upTo: nat, binning: Binning, entry: nat -> seq<Bin>)
    requires forall index :: entry(index) == BinOf(Members(os, index, binning), index)
    ensures Bins(os, upTo, binning) == Listed(upTo, entry)
  {
    if upTo > 0 {
      BinsAreListed(os, upTo - 1, binning, entry);
    }
  }

  /** The reported bins are those with members, in order, each with its size and its means. */
  lemma BinsListed(os: seq<Observation>, upTo: nat, binning: Binning) returns (p: seq<nat>)
    ensures Increasing(p) && |Bins(os, upTo, binning)| == |p|
    ensures forall index: nat :: index in p <==> index < upTo && Members(os, index, binning) != []
    ensures forall k | 0 <= k < |p| :: BinOf(Members(os, p[k], binning), p[k]) == [Bins(os, upTo, binning)[k]]
  {
    var entry := (index: nat) => BinOf(Members(os, index, binning), index);
    BinsAreListed(os, upTo, binning, entry);
    p := ListedAt(upTo, entry);
  }

  /** What is reported of a bin. */
  lemma BinMeansThat(members: seq<Observation>, index: nat)
    requires members != []
    ensures var bin := BinOf(members, index)[0];
            && bin.index == index && bin.count == |members|
            && bin.predictedMean * |members| as real == Sum(members, (o: Observation) => o.score)
            && bin.observedRate * |members| as real == Sum(members, (o: Observation) => if o.bounced then 1.0 else 0.0)
  {
    Rescaled(Sum(members, ScoreOf()), |members| as real);
    Rescaled(Sum(members, OutcomeOf()), |members| as real);
    SameSum(members, ScoreOf(), (o: Observation) => o.score);
    SameSum(members, OutcomeOf(), (o: Observation) => if o.bounced then 1.0 else 0.0);
  }

  lemma {:induction false} SameSum(os: seq<Observation>, f: Observation -> real, g: Observation -> real)
    requires forall o :: f(o) == g(o)
    ensures Sum(os, f) == Sum(os, g)
  {
    if os != [] {
      SameSum(os[..|os| - 1], f, g);
    }
  }
}
