/** What each operation on a staged send does to every recipient, in the words of its documentation: who is scored,
    sampled, sent to, released, blocked or settled, and on what grounds. */
module CanaryMeaning {
  import opened Wrappers
  import opened Text
  import opened Arithmetic
  import opened Canary
  import opened CanaryDecision
  import opened Sampling
  import opened Sequences

  // ---------------------------------------------------------------- counting

  ghost function Places(rows: seq<Recipient>, test: Recipient -> bool): set<nat> {
    set i: nat | i < |rows| && test(rows[i])
  }

  /** A count is the number of rows that pass the test. */
  lemma {:induction false} CountIsSize(rows: seq<Recipient>, test: Recipient -> bool)
    ensures Count(rows, test) == |Places(rows, test)|
  {
    if rows != [] {
      var n := |rows| - 1;
      CountIsSize(rows[..n], test);
      var before := Places(rows[..n], test);
      assert n !in before;
      assert Places(rows, test) == before + (if test(rows[n]) then {n} else {});
    }
  }

  /** Sample rows whose send went out and did not come back as a temporary failure. */
  ghost function Trials(rows: seq<Recipient>): set<nat> {
    set i: nat | i < |rows| && rows[i].role == InSample && rows[i].status in {Sent, Delivered, HardBounce}
  }

  ghost function Failures(rows: seq<Recipient>): set<nat> {
    set i: nat | i < |rows| && rows[i].role == InSample && rows[i].status == HardBounce
  }

  lemma TrialsCounted(rows: seq<Recipient>)
    ensures Count(rows, Observed) == |Trials(rows)| && Count(rows, Bounced) == |Failures(rows)|
  {
    CountIsSize(rows, Observed);
    CountIsSize(rows, Bounced);
    assert Places(rows, Observed) == Trials(rows);
    assert Places(rows, Bounced) == Failures(rows);
  }

  /** The sample is clean if at most the tolerated share of it failed. */
  ghost predicate Clean(rows: seq<Recipient>, threshold: real) {
    |Failures(rows)| as real <= threshold * |Trials(rows)| as real
  }

  lemma RateWithin(x: nat, n: nat, threshold: real)
    requires n > 0
    ensures x as real / n as real <= threshold <==> x as real <= threshold * n as real
  {
    var p := x as real / n as real;
    assert p * n as real == x as real;
    assert (p - threshold) * n as real == p * n as real - threshold * n as real;
    if p > threshold {
      Positive(p - threshold, n as real);
    } else if p < threshold {
      Positive(threshold - p, n as real);
    }
  }

  // ---------------------------------------------------------------- the decision

  /** Only the status of a row changes. */
  predicate OnlyStatus(row: Recipient, now: Recipient) {
    now == row.(status := now.status)
  }

  /** The row was sent to: released if the mail server took it, and skipped otherwise. */
  predicate SentOn(row: Recipient, now: Recipient, accepted: set<string>) {
    now.status == (if row.email in accepted then Released else Skipped)
  }

  /** Some failed sample row was no riskier. */
  ghost predicate FailedAtOrBelow(rows: seq<Recipient>, score: real) {
    exists j :: j in Failures(rows) && rows[j].score.Some? && rows[j].score.value <= score
  }

  /** Some failed sample row was no riskier. Under a negative tolerance none need have failed; then a certain bounce is
      too risky. */
  ghost predicate TooRisky(rows: seq<Recipient>, score: real) {
    if Failures(rows) == {} then score >= 1.0 else FailedAtOrBelow(rows, score)
  }

  lemma FailureAt(rows: seq<Recipient>, score: real)
    ensures FailedAtOrBelow(rows, score) <==> SafestFailure(rows).Some? && SafestFailure(rows).value <= score
  {
    SafestFailureIsLeast(rows);
    if SafestFailure(rows).Some? && SafestFailure(rows).value <= score {
      var row :| row in rows && Bounced(row) && row.score == SafestFailure(rows);
      var j :| 0 <= j < |rows| && rows[j] == row;
      assert j in Failures(rows);
    }
    if j :| j in Failures(rows) && rows[j].score.Some? && rows[j].score.value <= score {
      assert rows[j] in rows && Bounced(rows[j]);
    }
  }

  lemma AllFailed(rows: seq<Recipient>)
    ensures Count(rows, Bounced) == Count(rows, Observed) <==> Failures(rows) == Trials(rows)
    ensures |Failures(rows)| <= |Trials(rows)|
  {
    TrialsCounted(rows);
    assert Failures(rows) <= Trials(rows);
    SubsetSizes(Failures(rows), Trials(rows));
  }

  lemma SubsetSizes(a: set<nat>, b: set<nat>)
    requires a <= b
    ensures |a| <= |b| && (|a| == |b| ==> a == b)
  {
    assert |b| == |b - a| + |a|;
  }

  /** The verdict as the documentation gives it. */
  lemma VerdictMeans(rows: seq<Recipient>, threshold: real)
    ensures var verdict := VerdictOf(rows, threshold);
            && (verdict == NothingObserved <==> Trials(rows) == {})
            && (Trials(rows) != {} ==>
                  if Clean(rows, threshold) then verdict == ReleaseBelow(1.1)
                  else if Failures(rows) == Trials(rows) then verdict == BlockAll
                  else verdict == ReleaseBelow(match SafestFailure(rows) case Some(score) => score case None => 1.0))
  {
    TrialsCounted(rows);
    AllFailed(rows);
    NobodyTried(rows);
    if Trials(rows) != {} {
      CleanByRate(rows, threshold);
    }
  }

  lemma NobodyTried(rows: seq<Recipient>)
    ensures Trials(rows) == {} <==> |Trials(rows)| == 0
  {
  }

  lemma CleanByRate(rows: seq<Recipient>, threshold: real)
    requires |Trials(rows)| > 0
    ensures Count(rows, Observed) > 0
    ensures Count(rows, Bounced) as real / Count(rows, Observed) as real <= threshold <==> Clean(rows, threshold)
  {
    TrialsCounted(rows);
    RateWithin(|Failures(rows)|, |Trials(rows)|, threshold);
  }

  /** The decision, recipient by recipient: without a trial it changes nothing; otherwise everybody held and pending is
      released if the sample is clean, blocked if all of it failed, and else blocked just if the recipient is too risky.
      Released recipients are sent to, and nobody else is touched. */
  lemma DecisionMeans(rows: seq<Recipient>, threshold: real, accepted: set<string>, i: nat)
    requires i < |rows| && ScoresInRange(rows) && SampleScored(rows) && rows[i].score.Some?
    ensures |DecideRows(rows, threshold, accepted)| == |rows|
    ensures var row, now := rows[i], DecideRows(rows, threshold, accepted)[i];
            && OnlyStatus(row, now)
            && (row.role != Held || row.status != Pending || Trials(rows) == {} ==> now == row)
            && (row.role == Held && row.status == Pending && Trials(rows) != {} ==>
                  if Clean(rows, threshold) then SentOn(row, now, accepted)
                  else if Failures(rows) == Trials(rows) || TooRisky(rows, row.score.value) then
                    now.status == Blocked
                  else SentOn(row, now, accepted))
  {
    VerdictMeans(rows, threshold);
    FailureAt(rows, rows[i].score.value);
    SomeFailureScored(rows);
  }

  lemma SomeFailureScored(rows: seq<Recipient>)
    requires SampleScored(rows)
    ensures Failures(rows) != {} ==> SafestFailure(rows).Some?
    ensures Failures(rows) == {} ==> SafestFailure(rows).None?
  {
    SafestFailureIsLeast(rows);
    if Failures(rows) != {} {
      var j :| j in Failures(rows);
      assert rows[j] in rows && Bounced(rows[j]);
    }
    if SafestFailure(rows).Some? {
      var row :| row in rows && Bounced(row) && row.score == SafestFailure(rows);
      var j :| 0 <= j < |rows| && rows[j] == row;
      assert j in Failures(rows);
    }
  }

  /** How the batch ends. */
  lemma OutcomeMeans(rows: seq<Recipient>, threshold: real)
    ensures DecidedStatus(VerdictOf(rows, threshold)) ==
            if Trials(rows) == {} then BatchFailed
            else if !Clean(rows, threshold) && Failures(rows) == Trials(rows) then BatchBlocked
            else BatchReleased
  {
    VerdictMeans(rows, threshold);
  }

  // ---------------------------------------------------------------- sending, settling and cancelling

  /** The sample wave sends to exactly the pending rows of the sample. */
  lemma DispatchMeans(rows: seq<Recipient>, accepted: set<string>, i: nat)
    requires i < |rows|
    ensures |DispatchRows(rows, accepted)| == |rows|
    ensures var row, now := rows[i], DispatchRows(rows, accepted)[i];
            && OnlyStatus(row, now)
            && (if row.role == InSample && row.status == Pending then
                  now.status == (if row.email in accepted then Sent else Skipped)
                else now == row)
  {
  }

  predicate SameAddress(a: string, b: string) {
    Lower(Strip(a)) == Lower(Strip(b))
  }

  /** An outcome settles exactly the sent rows of its address. A hard bounce makes a sample row count as failed, a soft
      one takes it out of the trial, and any other outcome counts as delivered. */
  lemma BounceMeans(rows: seq<Recipient>, email: string, outcome: Status, i: nat)
    requires i < |rows|
    ensures |BounceRows(rows, email, outcome)| == |rows|
    ensures var row, after := rows[i], BounceRows(rows, email, outcome);
            && OnlyStatus(row, after[i])
            && (row.status != Sent || !SameAddress(row.email, email) ==> after[i] == row)
            && (row.status == Sent && SameAddress(row.email, email) ==>
                  && (outcome == HardBounce ==>
                        after[i].status == HardBounce && (row.role == InSample ==> i in Failures(after)))
                  && (outcome == SoftBounce ==> after[i].status == SoftBounce && i !in Trials(after))
                  && (outcome != HardBounce && outcome != SoftBounce ==>
                        && after[i].status == Delivered && i !in Failures(after)
                        && (row.role == InSample ==> i in Trials(after))))
  {
  }

  /** Cancelling blocks exactly what is still pending. */
  lemma CancelMeans(rows: seq<Recipient>, i: nat)
    requires i < |rows|
    ensures |CancelRows(rows)| == |rows|
    ensures var row, now := rows[i], CancelRows(rows)[i];
            OnlyStatus(row, now) && now.status == (if row.status == Pending then Blocked else row.status)
  {
  }

  // ---------------------------------------------------------------- scoring

  /** Validation found the address confirmed dead. */
  predicate Dead(v: Validation, email: string) {
    Lower(email) in v.dead
  }

  /** Scoring touches exactly the pending rows: each gets its score, an eighth if validation has none; the dead ones are
      skipped; and of the others exactly those come into the sample whose address was chosen, in any case. */
  lemma ScoringMeans(rows: seq<Recipient>, v: Validation, sampleSize: int, i: nat)
    requires i < |rows|
    ensures |ScoreRows(rows, v, sampleSize)| == |rows|
    ensures var row, now := rows[i], ScoreRows(rows, v, sampleSize)[i];
            && now.email == row.email
            && (row.status != Pending ==> now == row)
            && (row.status == Pending ==>
                  && now.score == Some(if Lower(row.email) in v.scores then v.scores[Lower(row.email)] else 0.125)
                  && now.status == (if Dead(v, row.email) then Skipped else Pending)
                  && now.role == (if !Dead(v, row.email) && Chosen(rows, v, sampleSize, row.email) then InSample
                                  else row.role))
  {
    SampledEmails(Sample(Survivors(rows, v), sampleSize).0, rows[i].email);
    assert ScoreRows(rows, v, sampleSize)[i]
        == AssignRow(ScoreRow(rows[i], v), SampleSet(rows, v, sampleSize));
  }

  /** The address is in the sample chosen among the survivors. */
  ghost predicate Chosen(rows: seq<Recipient>, v: Validation, sampleSize: int, email: string) {
    exists chosen :: chosen in Sample(Survivors(rows, v), sampleSize).0 && Lower(chosen) == Lower(email)
  }

  lemma SampledEmails(emails: seq<string>, email: string)
    ensures Lower(email) in LowerSet(emails) <==> exists chosen :: chosen in emails && Lower(chosen) == Lower(email)
  {
  }

  predicate Survives(row: Recipient, v: Validation) {
    row.status == Pending && !Dead(v, row.email)
  }

  ghost predicate SurvivorsAt(survivors: seq<Scored>, rows: seq<Recipient>, v: Validation, p: seq<nat>) {
    |survivors| == |p| &&
    forall k | 0 <= k < |p| :: p[k] < |rows| && survivors[k] == Scored(rows[p[k]].email, ScoreFor(v, rows[p[k]].email))
  }

  /** The survivors are the pending rows that are not dead, in order, each with the score it gets. */
  lemma {:induction false} SurvivorsMean(rows: seq<Recipient>, v: Validation) returns (p: seq<nat>)
    ensures Increasing(p) && forall i: nat :: i in p <==> i < |rows| && Survives(rows[i], v)
    ensures SurvivorsAt(Survivors(rows, v), rows, v, p)
  {
    if rows == [] {
      p := [];
    } else {
      var n := |rows| - 1;
      var earlier := SurvivorsMean(rows[..n], v);
      SurvivorsNext(rows, v);
      AtLonger(Survivors(rows[..n], v), rows, v, earlier);
      if Survives(rows[n], v) {
        IncreasingNext(earlier, n);
        p := earlier + [n];
      } else {
        p := earlier;
      }
    }
  }

  lemma AtLonger(survivors: seq<Scored>, rows: seq<Recipient>, v: Validation, p: seq<nat>)
    requires rows != [] && SurvivorsAt(survivors, rows[..|rows| - 1], v, p)
    ensures SurvivorsAt(survivors, rows, v, p)
  {
  }

  lemma SurvivorsNext(rows: seq<Recipient>, v: Validation)
    requires rows != []
    ensures var n := |rows| - 1;
            Survivors(rows, v) ==
            if Survives(rows[n], v) then
              Survivors(rows[..n], v) + [Scored(rows[n].email, ScoreFor(v, rows[n].email))]
            else Survivors(rows[..n], v)
  {
  }
}
