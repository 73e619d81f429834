/** One staged send: its recipients, and the steps that score, probe, observe and decide it. */
module Canary {
  import opened Wrappers
  import opened Text
  import opened Sampling

  datatype Role = InSample | Held

  datatype Status = Pending | Sent | Delivered | HardBounce | SoftBounce | Released | Blocked | Skipped

  datatype Recipient = Recipient(email: string, role: Role, status: Status, score: Option<real>)

  datatype BatchStatus = BatchPending | BatchProbing | BatchReleased | BatchBlocked | BatchCancelled | BatchFailed

  // ---------------------------------------------------------------- one recipient

  /** Selected by every query of the form `role = ... and status = 'pending'`. */
  predicate Due(row: Recipient, role: Role) {
    row.role == role && row.status == Pending
  }

  predicate IsPending(row: Recipient) {
    row.status == Pending
  }

  predicate SampleDue(row: Recipient) {
    Due(row, InSample)
  }

  /** What validation said: a score for some addresses, and the addresses that are confirmed dead. */
  datatype Validation = Validation(scores: map<string, real>, dead: set<string>)

  const DEFAULT_SCORE: real := 0.125

  function ScoreFor(v: Validation, email: string): real {
    if Lower(email) in v.scores then v.scores[Lower(email)] else DEFAULT_SCORE
  }

  function ScoreRow(row: Recipient, v: Validation): Recipient {
    if row.status != Pending then row
    else
      var scored := row.(score := Some(ScoreFor(v, row.email)));
      if Lower(row.email) in v.dead then scored.(status := Skipped) else scored
  }

  function AssignRow(row: Recipient, sample: set<string>): Recipient {
    if row.status == Pending && Lower(row.email) in sample then row.(role := InSample) else row
  }

  function DispatchRow(row: Recipient, accepted: set<string>): Recipient {
    if Due(row, InSample) then row.(status := if row.email in accepted then Sent else Skipped) else row
  }

  /** Held, undecided, and safer than the cutoff. */
  predicate Releasable(row: Recipient, cutoff: real) {
    Due(row, Held) && (row.score.None? || row.score.value < cutoff)
  }

  function ReleaseRow(row: Recipient, cutoff: real, accepted: set<string>): Recipient {
    if !Due(row, Held) then row
    else if !Releasable(row, cutoff) then row.(status := Blocked)
    else row.(status := if row.email in accepted then Released else Skipped)
  }

  function BlockRow(row: Recipient): Recipient {
    if Due(row, Held) then row.(status := Blocked) else row
  }

  function BounceRow(row: Recipient, email: string, outcome: Status): Recipient {
    if row.status == Sent && Lower(Strip(row.email)) == Lower(Strip(email)) then
      row.(status := if outcome == HardBounce || outcome == SoftBounce then outcome else Delivered)
    else row
  }

  function CancelRow(row: Recipient): Recipient {
    if row.status == Pending then row.(status := Blocked) else row
  }

  // ---------------------------------------------------------------- all recipients

  function MapRows(rows: seq<Recipient>, f: Recipient -> Recipient): (r: seq<Recipient>)
    ensures |r| == |rows|
    ensures forall i | 0 <= i < |rows| :: r[i] == f(rows[i])
  {
    seq(|rows|, i requires 0 <= i < |rows| => f(rows[i]))
  }

  /** Pending rows that survived validation, with their scores, in row order. */
  function Survivors(rows: seq<Recipient>, v: Validation): seq<Scored> {
    if rows == [] then []
    else
      var last := rows[|rows| - 1];
      Survivors(rows[..|rows| - 1], v)
        + (if last.status == Pending && Lower(last.email) !in v.dead then [Scored(last.email, ScoreFor(v, last.email))]
           else [])
  }

  function LowerSet(emails: seq<string>): set<string> {
    set email | email in emails :: Lower(email)
  }

  function SampleSet(rows: seq<Recipient>, v: Validation, sampleSize: int): set<string> {
    LowerSet(Sample(Survivors(rows, v), sampleSize).0)
  }

  function ScoreRows(rows: seq<Recipient>, v: Validation, sampleSize: int): seq<Recipient> {
    var sample := SampleSet(rows, v, sampleSize);
    MapRows(rows, row => AssignRow(ScoreRow(row, v), sample))
  }

  function DispatchRows(rows: seq<Recipient>, accepted: set<string>): seq<Recipient> {
    MapRows(rows, row => DispatchRow(row, accepted))
  }

  function ReleaseRows(rows: seq<Recipient>, cutoff: real, accepted: set<string>): seq<Recipient> {
    MapRows(rows, row => ReleaseRow(row, cutoff, accepted))
  }

  function BlockRows(rows: seq<Recipient>): seq<Recipient> {
    MapRows(rows, BlockRow)
  }

  function BounceRows(rows: seq<Recipient>, email: string, outcome: Status): seq<Recipient> {
    MapRows(rows, row => BounceRow(row, email, outcome))
  }

  function CancelRows(rows: seq<Recipient>): seq<Recipient> {
    MapRows(rows, CancelRow)
  }

  // ---------------------------------------------------------------- the decision

  predicate Observed(row: Recipient) {
    row.role == InSample && row.status in {Sent, Delivered, HardBounce}
  }

  predicate Bounced(row: Recipient) {
    row.role == InSample && row.status == HardBounce
  }

  function Count(rows: seq<Recipient>, p: Recipient -> bool): nat {
    if rows == [] then 0 else Count(rows[..|rows| - 1], p) + (if p(rows[|rows| - 1]) then 1 else 0)
  }

  function Lower2(a: Option<real>, b: Option<real>): Option<real> {
    if a.None? then b else if b.None? || a.value <= b.value then a else b
  }

  /** The least score among the bounced sample rows that have one. */
  function SafestFailure(rows: seq<Recipient>): Option<real> {
    if rows == [] then None
    else
      var last := rows[|rows| - 1];
      Lower2(SafestFailure(rows[..|rows| - 1]), if Bounced(last) then last.score else None)
  }

  datatype Verdict = NothingObserved | ReleaseBelow(cutoff: real) | BlockAll

  function VerdictOf(rows: seq<Recipient>, threshold: real): Verdict {
    var observed, bounced := Count(rows, Observed), Count(rows, Bounced);
    if observed == 0 then NothingObserved
    else if bounced as real / observed as real <= threshold then ReleaseBelow(1.1)
    else if bounced == observed then BlockAll
    else ReleaseBelow(match SafestFailure(rows) case Some(score) => score case None => 1.0)
  }

  function DecideRows(rows: seq<Recipient>, threshold: real, accepted: set<string>): seq<Recipient> {
    match VerdictOf(rows, threshold)
    case NothingObserved => rows
    case ReleaseBelow(cutoff) => ReleaseRows(rows, cutoff, accepted)
    case BlockAll => BlockRows(rows)
  }

  function DecidedStatus(verdict: Verdict): BatchStatus {
    match verdict
    case NothingObserved => BatchFailed
    case ReleaseBelow(_) => BatchReleased
    case BlockAll => BatchBlocked
  }

  /** The held recipients a verdict tries to send to. */
  predicate Selected(row: Recipient, verdict: Verdict) {
    verdict.ReleaseBelow? && Releasable(row, verdict.cutoff)
  }

  // ---------------------------------------------------------------- the batch object

  /** Send attempts so far, one count per recipient, after trying the rows that satisfy `tried`. */
  function Tried(attempts: seq<nat>, rows: seq<Recipient>, tried: Recipient -> bool): (r: seq<nat>)
    requires |attempts| == |rows|
    ensures |r| == |rows|
  {
    seq(|rows|, i requires 0 <= i < |rows| => attempts[i] + (if tried(rows[i]) then 1 else 0))
  }

  class StagedSend {
    const sampleSize: int
    const threshold: real
    var status: BatchStatus
    var rows: seq<Recipient>
    var attempts: seq<nat>

    ghost predicate Valid()
      reads this
    {
      |attempts| == |rows|
    }

    constructor (rows: seq<Recipient>, sampleSize: int, threshold: real)
      ensures Valid() && this.rows == rows && status == BatchPending
      ensures this.sampleSize == sampleSize && this.threshold == threshold
      ensures forall i | 0 <= i < |attempts| :: attempts[i] == 0
    {
      this.rows := rows;
      this.sampleSize := sampleSize;
      this.threshold := threshold;
      status := BatchPending;
      attempts := seq(|rows|, _ => 0);
    }

    /** `score_and_assign_sample`: the number of survivors, as the scheduler uses it. */
    method ScoreAndAssignSample(v: Validation) returns (sendable: nat)
      requires Valid()
      modifies this`rows, this`status
      ensures Valid()
      ensures rows == ScoreRows(old(rows), v, sampleSize)
      ensures sendable == |Survivors(old(rows), v)|
      ensures status == if sendable == 0 && Count(old(rows), IsPending) > 0 then BatchBlocked else old(status)
    {
      ghost var before := rows;
      var pending := CountPending();
      if pending == 0 {
        NonePending(rows, v, SampleSet(rows, v, sampleSize));
        return 0;
      }
      var scored := ScoreLoop(v);
      var sample, _ := ChooseSample(scored, sampleSize);
      AssignLoop(LowerSet(sample), before, v);
      if scored == [] {
        status := BatchBlocked;
      }
      sendable := |scored|;
    }

    method CountPending() returns (pending: nat)
      ensures pending == Count(rows, IsPending)
    {
      pending := 0;
      for i := 0 to |rows|
        invariant pending == Count(rows[..i], IsPending)
      {
        assert rows[..i + 1][..i] == rows[..i];
        if rows[i].status == Pending {
          pending := pending + 1;
        }
      }
      assert rows[..|rows|] == rows;
    }

    method ScoreLoop(v: Validation) returns (scored: seq<Scored>)
      requires Valid()
      modifies this`rows
      ensures Valid() && rows == MapRows(old(rows), row => ScoreRow(row, v))
      ensures scored == Survivors(old(rows), v)
    {
      ghost var before := rows;
      scored := [];
      for i := 0 to |rows|
        invariant |rows| == |before|
        invariant forall j | 0 <= j < i :: rows[j] == ScoreRow(before[j], v)
        invariant forall j | i <= j < |rows| :: rows[j] == before[j]
        invariant scored == Survivors(before[..i], v)
      {
        assert before[..i + 1][..i] == before[..i];
        var row := rows[i];
        if row.status == Pending {
          var score := ScoreFor(v, row.email);
          if Lower(row.email) in v.dead {
            rows := rows[i := row.(score := Some(score), status := Skipped)];
          } else {
            rows := rows[i := row.(score := Some(score))];
            scored := scored + [Scored(row.email, score)];
          }
        }
      }
      assert before[..|before|] == before;
    }

    method AssignLoop(sample: set<string>, ghost before: seq<Recipient>, ghost v: Validation)
      requires Valid() && rows == MapRows(before, row => ScoreRow(row, v))
      modifies this`rows
      ensures Valid()
      ensures rows == MapRows(before, row => AssignRow(ScoreRow(row, v), sample))
    {
      ghost var scored := rows;
      for i := 0 to |rows|
        invariant |rows| == |scored|
        invariant forall j | 0 <= j < i :: rows[j] == AssignRow(scored[j], sample)
        invariant forall j | i <= j < |rows| :: rows[j] == scored[j]
      {
        if rows[i].status == Pending && Lower(rows[i].email) in sample {
          rows := rows[i := rows[i].(role := InSample)];
        }
      }
    }

    /** `dispatch_sample`: the sample wave; `accepted` are the addresses whose send does not fail. */
    method DispatchSample(accepted: set<string>) returns (sent: nat)
      requires Valid()
      modifies this
      ensures Valid() && rows == DispatchRows(old(rows), accepted)
      ensures attempts == Tried(old(attempts), old(rows), SampleDue)
      ensures status == if Count(old(rows), SampleDue) > 0 then BatchProbing else old(status)
      ensures sent == Count(old(rows), row => SampleDue(row) && row.email in accepted)
    {
      var due;
      due, sent := DispatchLoop(accepted);
      if due > 0 {
        status := BatchProbing;
      }
    }

    method DispatchLoop(accepted: set<string>) returns (due: nat, sent: nat)
      requires Valid()
      modifies this`rows, this`attempts
      ensures Valid() && rows == DispatchRows(old(rows), accepted)
      ensures attempts == Tried(old(attempts), old(rows), SampleDue)
      ensures due == Count(old(rows), SampleDue)
      ensures sent == Count(old(rows), row => SampleDue(row) && row.email in accepted)
    {
      ghost var before, tries := rows, attempts;
      due, sent := 0, 0;
      for i := 0 to |rows|
        invariant |rows| == |before| == |attempts| == |tries|
        invariant forall j | 0 <= j < i ::
                    rows[j] == DispatchRow(before[j], accepted) &&
                    attempts[j] == tries[j] + (if SampleDue(before[j]) then 1 else 0)
        invariant forall j | i <= j < |rows| :: rows[j] == before[j] && attempts[j] == tries[j]
        invariant due == Count(before[..i], SampleDue)
        invariant sent == Count(before[..i], row => SampleDue(row) && row.email in accepted)
      {
        assert before[..i + 1][..i] == before[..i];
        var isDue, ok := DispatchOne(i, accepted);
        due := if isDue then due + 1 else due;
        sent := if ok then sent + 1 else sent;
      }
      assert before[..|before|] == before;
    }

    method DispatchOne(i: nat, accepted: set<string>) returns (isDue: bool, ok: bool)
      requires Valid() && i < |rows|
      modifies this`rows, this`attempts
      ensures rows == old(rows)[i := DispatchRow(old(rows)[i], accepted)]
      ensures attempts == old(attempts)[i := old(attempts)[i] + (if isDue then 1 else 0)]
      ensures isDue == SampleDue(old(rows)[i]) && ok == (isDue && old(rows)[i].email in accepted)
    {
      isDue, ok := SampleDue(rows[i]), false;
      if isDue {
        attempts := attempts[i := attempts[i] + 1];
        if rows[i].email in accepted {
          rows := rows[i := rows[i].(status := Sent)];
          ok := true;
        } else {
          rows := rows[i := rows[i].(status := Skipped)];
        }
      }
    }

    /** `release_remaining`. */
    method ReleaseRemaining(cutoff: real, accepted: set<string>) returns (released: nat)
      requires Valid()
      modifies this`rows, this`attempts
      ensures Valid() && rows == ReleaseRows(old(rows), cutoff, accepted)
      ensures attempts == Tried(old(attempts), old(rows), row => Releasable(row, cutoff))
      ensures released == Count(old(rows), row => Releasable(row, cutoff) && row.email in accepted)
    {
      ghost var before, tries := rows, attempts;
      released := 0;
      for i := 0 to |rows|
        invariant |rows| == |before| == |attempts| == |tries|
        invariant forall j | 0 <= j < i ::
                    rows[j] == ReleaseRow(before[j], cutoff, accepted) &&
                    attempts[j] == tries[j] + (if Releasable(before[j], cutoff) then 1 else 0)
        invariant forall j | i <= j < |rows| :: rows[j] == before[j] && attempts[j] == tries[j]
        invariant released == Count(before[..i], row => Releasable(row, cutoff) && row.email in accepted)
      {
        assert before[..i + 1][..i] == before[..i];
        var ok := ReleaseOne(i, cutoff, accepted);
        released := if ok then released + 1 else released;
      }
      assert before[..|before|] == before;
    }

    method ReleaseOne(i: nat, cutoff: real, accepted: set<string>) returns (ok: bool)
      requires Valid() && i < |rows|
      modifies this`rows, this`attempts
      ensures rows == old(rows)[i := ReleaseRow(old(rows)[i], cutoff, accepted)]
      ensures attempts == old(attempts)[i := old(attempts)[i] + (if Releasable(old(rows)[i], cutoff) then 1 else 0)]
      ensures ok == (Releasable(old(rows)[i], cutoff) && old(rows)[i].email in accepted)
    {
      if !Due(rows[i], Held) {
        return false;
      }
      if rows[i].score.Some? && rows[i].score.value >= cutoff {
        rows := rows[i := rows[i].(status := Blocked)];
        return false;
      }
      attempts := attempts[i := attempts[i] + 1];
      ok := rows[i].email in accepted;
      rows := rows[i := rows[i].(status := if ok then Released else Skipped)];
    }

    /** `_block_remaining`. */
    method BlockRemaining()
      requires Valid()
      modifies this`rows
      ensures Valid() && rows == BlockRows(old(rows))
    {
      ghost var before := rows;
      for i := 0 to |rows|
        invariant |rows| == |before|
        invariant forall j | 0 <= j < i :: rows[j] == BlockRow(before[j])
        invariant forall j | i <= j < |rows| :: rows[j] == before[j]
      {
        if Due(rows[i], Held) {
          rows := rows[i := rows[i].(status := Blocked)];
        }
      }
    }

    /** The observed sample and its failures. */
    method ObserveSample() returns (observed: nat, bounced: nat, safest: Option<real>)
      ensures observed == Count(rows, Observed) && bounced == Count(rows, Bounced) && safest == SafestFailure(rows)
    {
      observed, bounced, safest := 0, 0, None;
      for i := 0 to |rows|
        invariant observed == Count(rows[..i], Observed) && bounced == Count(rows[..i], Bounced)
        invariant safest == SafestFailure(rows[..i])
      {
        assert rows[..i + 1][..i] == rows[..i];
        if Observed(rows[i]) {
          observed := observed + 1;
          if rows[i].status == HardBounce {
            bounced := bounced + 1;
            safest := Lower2(safest, rows[i].score);
          }
        }
      }
      assert rows[..|rows|] == rows;
    }

    /** `decide`. */
    method Decide(accepted: set<string>)
      requires Valid()
      modifies this
      ensures Valid() && rows == DecideRows(old(rows), threshold, accepted)
      ensures status == DecidedStatus(VerdictOf(old(rows), threshold))
      ensures attempts == Tried(old(attempts), old(rows), row => Selected(row, VerdictOf(old(rows), threshold)))
    {
      ghost var verdict := VerdictOf(rows, threshold);
      var observed, bounced, safest := ObserveSample();
      if observed == 0 {
        status := BatchFailed;
        assert attempts == Tried(attempts, rows, row => Selected(row, verdict));
        return;
      }
      if bounced as real / observed as real <= threshold {
        var _ := ReleaseRemaining(1.1, accepted);
        status := BatchReleased;
      } else if bounced == observed {
        BlockRemaining();
        status := BatchBlocked;
        assert attempts == Tried(attempts, rows, row => Selected(row, verdict));
      } else {
        var cutoff := if safest.Some? then safest.value else 1.0;
        var _ := ReleaseRemaining(cutoff, accepted);
        status := BatchReleased;
      }
    }

    /** `apply_bounce`, for this batch. */
    method ApplyBounce(email: string, outcome: Status)
      requires Valid()
      modifies this`rows
      ensures Valid() && rows == BounceRows(old(rows), email, outcome)
    {
      ghost var before := rows;
      for i := 0 to |rows|
        invariant |rows| == |before|
        invariant forall j | 0 <= j < i :: rows[j] == BounceRow(before[j], email, outcome)
        invariant forall j | i <= j < |rows| :: rows[j] == before[j]
      {
        if rows[i].status == Sent && Lower(Strip(rows[i].email)) == Lower(Strip(email)) {
          var settled := if outcome == HardBounce || outcome == SoftBounce then outcome else Delivered;
          rows := rows[i := rows[i].(status := settled)];
        }
      }
    }

    /** The cancel endpoint: one update of all pending rows. */
    method Cancel() returns (conflict: bool)
      requires Valid()
      modifies this`rows, this`status
      ensures Valid() && (conflict <==> old(status) in {BatchReleased, BatchBlocked, BatchCancelled})
      ensures rows == if conflict then old(rows) else CancelRows(old(rows))
      ensures status == if conflict then old(status) else BatchCancelled
    {
      if status in {BatchReleased, BatchBlocked, BatchCancelled} {
        return true;
      }
      rows := MapRows(rows, CancelRow);
      status := BatchCancelled;
      conflict := false;
    }
  }

  /** Without pending rows scoring changes nothing. */
  lemma {:induction false} NonePending(rows: seq<Recipient>, v: Validation, sample: set<string>)
    requires Count(rows, IsPending) == 0
    ensures Survivors(rows, v) == []
    ensures MapRows(rows, row => AssignRow(ScoreRow(row, v), sample)) == rows
  {
    if rows != [] {
      NonePending(rows[..|rows| - 1], v, sample);
      var before := MapRows(rows[..|rows| - 1], row => AssignRow(ScoreRow(row, v), sample));
      assert forall i | 0 <= i < |rows| - 1 :: before[i] == rows[i];
    }
  }
}
