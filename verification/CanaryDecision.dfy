/** What the staged-send verdict guarantees about the recipients it selects. */
module CanaryDecision {
  import opened Wrappers
  import opened Arithmetic
  import opened Canary

  lemma {:induction false} CountOrder(rows: seq<Recipient>, p: Recipient -> bool, q: Recipient -> bool)
    requires forall row | row in rows && p(row) :: q(row)
    ensures Count(rows, p) <= Count(rows, q)
    ensures Count(rows, p) == Count(rows, q) <==> forall row | row in rows && q(row) :: p(row)
  {
    if rows != [] {
      var last := rows[|rows| - 1];
      assert last in rows && forall row <- rows[..|rows| - 1] :: row in rows;
      assert forall row <- rows :: row == last || row in rows[..|rows| - 1];
      CountOrder(rows[..|rows| - 1], p, q);
    }
  }

  /** The safest failure is attained by a bounced sample row and is no riskier than any of them. */
  lemma {:induction false} SafestFailureIsLeast(rows: seq<Recipient>)
    ensures forall row | row in rows && Bounced(row) && row.score.Some? ::
              SafestFailure(rows).Some? && SafestFailure(rows).value <= row.score.value
    ensures SafestFailure(rows).Some? ==>
              exists row :: row in rows && Bounced(row) && row.score == SafestFailure(rows)
  {
    if rows != [] {
      var last, before := rows[|rows| - 1], rows[..|rows| - 1];
      SafestFailureIsLeast(before);
      assert last in rows && forall row <- before :: row in rows;
      assert forall row <- rows :: row == last || row in before;
    }
  }

  ghost predicate ScoresInRange(rows: seq<Recipient>) {
    forall i | 0 <= i < |rows| && rows[i].score.Some? :: 0.0 <= rows[i].score.value <= 1.0
  }

  ghost predicate SampleScored(rows: seq<Recipient>) {
    forall i | 0 <= i < |rows| && rows[i].role == InSample :: rows[i].score.Some?
  }

  /** The same batch, with the same observed sample, in which some more of its recipients bounced. */
  ghost predicate MoreBounces(rows: seq<Recipient>, worse: seq<Recipient>) {
    && |worse| == |rows|
    && forall i | 0 <= i < |rows| ::
         worse[i] == rows[i] || (Observed(rows[i]) && worse[i] == rows[i].(status := HardBounce))
  }

  lemma {:induction false} MoreBouncesCounts(rows: seq<Recipient>, worse: seq<Recipient>)
    requires MoreBounces(rows, worse)
    ensures Count(worse, Observed) == Count(rows, Observed)
    ensures Count(rows, Bounced) <= Count(worse, Bounced) <= Count(worse, Observed)
  {
    if rows != [] {
      MoreBouncesCounts(rows[..|rows| - 1], worse[..|worse| - 1]);
    }
  }

  lemma RateOrder(x: nat, y: nat, n: nat)
    requires x <= y && n > 0
    ensures x as real / n as real <= y as real / n as real
  {
    var p, q := x as real / n as real, y as real / n as real;
    assert p * n as real == x as real && q * n as real == y as real;
    if p > q {
      Positive(p - q, n as real);
    }
  }

  lemma MoreBouncesSafest(rows: seq<Recipient>, worse: seq<Recipient>)
    requires MoreBounces(rows, worse) && SafestFailure(rows).Some?
    ensures SafestFailure(worse).Some? && SafestFailure(worse).value <= SafestFailure(rows).value
  {
    SafestFailureIsLeast(rows);
    SafestFailureIsLeast(worse);
    var row :| row in rows && Bounced(row) && row.score == SafestFailure(rows);
    var i :| 0 <= i < |rows| && rows[i] == row;
    assert worse[i] in worse && Bounced(worse[i]);
  }

  lemma SafestInRange(rows: seq<Recipient>)
    requires ScoresInRange(rows) && SafestFailure(rows).Some?
    ensures 0.0 <= SafestFailure(rows).value <= 1.0
  {
    SafestFailureIsLeast(rows);
    var row :| row in rows && Bounced(row) && row.score == SafestFailure(rows);
    var i :| 0 <= i < |rows| && rows[i] == row;
  }

  /** For a fixed observed sample, more hard bounces never select a recipient that fewer did not. */
  lemma DecisionAntitone(rows: seq<Recipient>, worse: seq<Recipient>, threshold: real, row: Recipient)
    requires MoreBounces(rows, worse) && ScoresInRange(rows)
    requires Selected(row, VerdictOf(worse, threshold))
    ensures Selected(row, VerdictOf(rows, threshold))
  {
    var observed := Count(rows, Observed);
    MoreBouncesCounts(rows, worse);
    if observed > 0 {
      RateOrder(Count(rows, Bounced), Count(worse, Bounced), observed);
    }
    if SafestFailure(rows).Some? {
      MoreBouncesSafest(rows, worse);
    }
    assert ScoresInRange(worse);
    if SafestFailure(worse).Some? {
      SafestInRange(worse);
    }
  }

  /** Over the threshold, whoever is selected scores strictly below every bounced sample, and nobody is
      selected when the whole observed sample bounced. The recipient may be read later than the sample. */
  lemma DecisionSeparates(rows: seq<Recipient>, threshold: real, row: Recipient)
    requires SampleScored(rows) && row.score.Some?
    requires OverThreshold(rows, threshold)
    requires Selected(row, VerdictOf(rows, threshold))
    ensures forall j | 0 <= j < |rows| && Bounced(rows[j]) ::
              rows[j].score.Some? && row.score.value < rows[j].score.value
    ensures exists j :: 0 <= j < |rows| && Observed(rows[j]) && !Bounced(rows[j])
  {
    SafestFailureIsLeast(rows);
    CountOrder(rows, Bounced, Observed);
    forall j | 0 <= j < |rows| && Bounced(rows[j])
      ensures rows[j].score.Some? && row.score.value < rows[j].score.value
    {
      assert rows[j] in rows;
    }
    assert !forall other | other in rows && Observed(other) :: Bounced(other);
    var other :| other in rows && Observed(other) && !Bounced(other);
    var j :| 0 <= j < |rows| && rows[j] == other;
  }

  predicate OverThreshold(rows: seq<Recipient>, threshold: real) {
    Count(rows, Observed) > 0 && Count(rows, Bounced) as real / Count(rows, Observed) as real > threshold
  }

  /** Within the threshold everyone held is selected, provided scores stay below the release-all cutoff. */
  lemma CleanSampleReleasesAll(rows: seq<Recipient>, threshold: real, i: nat)
    requires i < |rows| && ScoresInRange(rows) && Due(rows[i], Held)
    requires Count(rows, Observed) > 0
    requires Count(rows, Bounced) as real / Count(rows, Observed) as real <= threshold
    ensures Selected(rows[i], VerdictOf(rows, threshold))
  {
  }
}
