/** What holds of a staged send over whole runs, whatever sessions and callers interleave. Sessions open only on a
    batch whose status asks for them, as the scheduler and the decide endpoint see to. */
module CanaryRuns {
  import opened Wrappers
  import opened Text
  import opened Sequences
  import opened Sampling
  import opened Canary
  import opened CanaryDecision
  import opened CanarySessions

  // ---------------------------------------------------------------- rows only ever move on

  /** No row becomes pending, leaves the sample or loses its score. */
  predicate Later(row: Recipient, now: Recipient) {
    && now.email == row.email
    && (now.status == Pending ==> row.status == Pending)
    && (row.role == InSample ==> now.role == InSample)
    && (row.score.Some? ==> now.score.Some?)
  }

  ghost predicate RowsLater(rows: seq<Recipient>, now: seq<Recipient>) {
    |now| == |rows| && forall i | 0 <= i < |rows| :: Later(rows[i], now[i])
  }

  lemma LaterAgain(a: seq<Recipient>, b: seq<Recipient>, c: seq<Recipient>)
    requires RowsLater(a, b) && RowsLater(b, c)
    ensures RowsLater(a, c)
  {
    forall i | 0 <= i < |a|
      ensures Later(a[i], c[i])
    {
      assert Later(a[i], b[i]) && Later(b[i], c[i]);
    }
  }

  lemma ScoredLater(stored: Recipient, seen: Recipient, v: Validation, sample: set<string>)
    requires Later(seen, stored)
    ensures Later(stored, Written(stored, seen, AssignRow(ScoreRow(seen, v), sample)))
  {
  }

  lemma WrittenScoresLater(rows: seq<Recipient>, seen: seq<Recipient>, v: Validation, sampleSize: int)
    requires RowsLater(seen, rows)
    ensures RowsLater(rows, WrittenScores(rows, seen, v, sampleSize))
  {
    var sample := SampleSet(seen, v, sampleSize);
    forall i | 0 <= i < |rows|
      ensures Later(rows[i], WrittenScores(rows, seen, v, sampleSize)[i])
    {
      assert Later(seen[i], rows[i]);
      ScoredLater(rows[i], seen[i], v, sample);
      assert ScoreRows(seen, v, sampleSize)[i] == AssignRow(ScoreRow(seen[i], v), sample);
    }
  }

  lemma WrittenWaveLater(rows: seq<Recipient>, s: Session)
    requires s.Sending?
    ensures RowsLater(rows, WrittenWave(rows, s))
  {
  }

  lemma CommitScoresMovesOn(b: Batch, w: nat, v: Validation)
    requires Shape(b)
    ensures RowsLater(b.rows, AfterCommitScores(b, w, v).rows)
  {
    Unmoved(b.rows);
    if At(b, w).Scoring? {
      assert Shaped(b.sessions[w], b.rows);
      WrittenScoresLater(b.rows, At(b, w).seen, v, b.sampleSize);
    }
  }

  lemma StepMovesOn(b: Batch, e: Event)
    requires Shape(b)
    ensures RowsLater(b.rows, Step(b, e).rows)
  {
    match e
    case CommitScores(w, v) => CommitScoresMovesOn(b, w, v);
    case Commit(w) =>
      if At(b, w).Sending? {
        WrittenWaveLater(b.rows, At(b, w));
      }
    case Bounce(email, outcome) => BounceMovesOn(b.rows, email, outcome);
    case Cancel => CancelMovesOn(b.rows);
    case _ =>
  }

  lemma BounceMovesOn(rows: seq<Recipient>, email: string, outcome: Status)
    ensures RowsLater(rows, BounceRows(rows, email, outcome))
  {
  }

  lemma CancelMovesOn(rows: seq<Recipient>)
    ensures RowsLater(rows, CancelRows(rows))
  {
  }

  // ---------------------------------------------------------------- the shape of sessions

  /** What a session under way knows of the rows still holds of them. */
  ghost predicate Shaped(s: Session, rows: seq<Recipient>) {
    match s
    case Scoring(seen) => RowsLater(seen, rows)
    case Judged(seen) => RowsLater(seen, rows) && Count(seen, Observed) > 0
    case Sending(wave, due, tried, _, _) => SendingShaped(wave, due, tried, rows)
    case Concluding(outcome) => outcome != BatchProbing
    case _ => true
  }

  ghost predicate SendingShaped(wave: Wave, due: seq<nat>, tried: nat, rows: seq<Recipient>) {
    && NoDup(due) && tried <= |due|
    && (forall i <- due :: i < |rows| && (wave.SampleWave? ==> rows[i].role == InSample))
    && (if wave.SampleWave? then due != [] else wave.outcome != BatchProbing)
  }

  ghost predicate Shape(b: Batch) {
    |b.attempts| == |b.rows| && AllShaped(b.sessions, b.rows)
  }

  ghost predicate AllShaped(ss: seq<Session>, rows: seq<Recipient>) {
    forall k | 0 <= k < |ss| :: Shaped(ss[k], rows)
  }

  lemma ShapedLater(s: Session, rows: seq<Recipient>, now: seq<Recipient>)
    requires Shaped(s, rows) && RowsLater(rows, now)
    ensures Shaped(s, now)
  {
    match s
    case Scoring(seen) => LaterAgain(seen, rows, now);
    case Judged(seen) => LaterAgain(seen, rows, now);
    case Sending(wave, due, _, _, _) =>
      forall i <- due
        ensures i < |now| && (wave.SampleWave? ==> now[i].role == InSample)
      {
        assert Later(rows[i], now[i]);
      }
    case _ =>
  }

  /** A step that replaces one session at most, by a shaped one, while the rows move on. */
  lemma Replaced(b: Batch, after: Batch, w: nat, s: Session)
    requires Shape(b) && RowsLater(b.rows, after.rows) && |after.attempts| == |b.attempts|
    requires after.sessions == if w < |b.sessions| then b.sessions[w := s] else b.sessions
    requires w < |b.sessions| ==> Shaped(s, after.rows)
    ensures Shape(after)
  {
    forall k | 0 <= k < |b.sessions|
      ensures Shaped(b.sessions[k], after.rows)
    {
      ShapedLater(b.sessions[k], b.rows, after.rows);
    }
  }

  lemma Unmoved(rows: seq<Recipient>)
    ensures RowsLater(rows, rows)
  {
  }

  lemma WavefrontShaped(b: Batch, s: Session)
    requires s.Ready? || (s.Judged? && Shaped(s, b.rows))
    requires s.Ready? ==> Wavefront(b, s).due != []
    ensures Shaped(Wavefront(b, s), b.rows)
  {
    WaveMembers(b, s);
    SelectedPending(b, s);
  }

  lemma StepKeepsShape(b: Batch, e: Event)
    requires Shape(b)
    ensures Shape(Step(b, e))
  {
    match e
    case Open(deciding) => OpenKeepsShape(b, deciding);
    case LoadScores(w) => LoadScoresKeepsShape(b, w);
    case CommitScores(w, v) => CommitScoresKeepsShape(b, w, v);
    case Judge(w) => JudgeKeepsShape(b, w);
    case LoadWave(w) => LoadKeepsShape(b, w);
    case Send(w, ok) => SendKeepsShape(b, w, ok);
    case Commit(w) => CommitKeepsShape(b, w);
    case Conclude(w) => EndKeepsShape(b, e, w);
    case CutOff(w) => EndKeepsShape(b, e, w);
    case Bounce(_, _) => CallerKeepsShape(b, e);
    case Cancel => CallerKeepsShape(b, e);
  }

  lemma OpenKeepsShape(b: Batch, deciding: bool)
    requires Shape(b)
    ensures Shape(AfterOpen(b, deciding))
  {
  }

  lemma LoadScoresKeepsShape(b: Batch, w: nat)
    requires Shape(b)
    ensures Shape(AfterLoadScores(b, w))
  {
    Unmoved(b.rows);
    Replaced(b, AfterLoadScores(b, w), w, At(AfterLoadScores(b, w), w));
  }

  lemma CommitScoresKeepsShape(b: Batch, w: nat, v: Validation)
    requires Shape(b)
    ensures Shape(AfterCommitScores(b, w, v))
  {
    if At(b, w).Scoring? && |At(b, w).seen| == |b.rows| {
      CommitScoresMovesOn(b, w, v);
      var s := if Survivors(At(b, w).seen, v) == [] then Finished else Ready;
      assert AfterCommitScores(b, w, v).sessions == b.sessions[w := s];
      Replaced(b, AfterCommitScores(b, w, v), w, s);
    }
  }

  lemma JudgeKeepsShape(b: Batch, w: nat)
    requires Shape(b)
    ensures Shape(AfterJudge(b, w))
  {
    Unmoved(b.rows);
    Replaced(b, AfterJudge(b, w), w, At(AfterJudge(b, w), w));
  }

  lemma LoadKeepsShape(b: Batch, w: nat)
    requires Shape(b)
    ensures Shape(AfterLoadWave(b, w))
  {
    var s := At(b, w);
    Unmoved(b.rows);
    if s.Ready? || s.Judged? {
      assert Shaped(b.sessions[w], b.rows);
      if s.Ready? && Wavefront(b, s).due == [] {
        Replaced(b, AfterLoadWave(b, w), w, Finished);
      } else {
        WavefrontShaped(b, s);
        Replaced(b, AfterLoadWave(b, w), w, Wavefront(b, s));
      }
    }
  }

  lemma SendKeepsShape(b: Batch, w: nat, ok: bool)
    requires Shape(b)
    ensures Shape(AfterSend(b, w, ok))
  {
    Unmoved(b.rows);
    if w < |b.sessions| {
      assert Shaped(b.sessions[w], b.rows);
    }
    Replaced(b, AfterSend(b, w, ok), w, At(AfterSend(b, w, ok), w));
  }

  lemma CommitKeepsShape(b: Batch, w: nat)
    requires Shape(b)
    ensures Shape(AfterCommit(b, w))
  {
    if w < |b.sessions| && b.sessions[w].Sending? && b.sessions[w].tried == |b.sessions[w].due| {
      assert Shaped(b.sessions[w], b.rows);
      WrittenWaveLater(b.rows, b.sessions[w]);
      Replaced(b, AfterCommit(b, w), w, At(AfterCommit(b, w), w));
    }
  }

  lemma EndKeepsShape(b: Batch, e: Event, w: nat)
    requires Shape(b) && (e == Conclude(w) || e == CutOff(w))
    ensures Shape(Step(b, e))
  {
    Unmoved(b.rows);
    if Step(b, e) != b {
      Replaced(b, Step(b, e), w, Finished);
    }
  }

  lemma CallerKeepsShape(b: Batch, e: Event)
    requires Shape(b) && (e.Bounce? || e.Cancel?)
    ensures Shape(Step(b, e))
  {
    StepMovesOn(b, e);
    Replaced(b, Step(b, e), |b.sessions|, Finished);
  }

  // ---------------------------------------------------------------- send attempts

  /** The recipient needs no further attempt: its row is not pending, or a session under way holds it. */
  predicate TakenCareOf(b: Batch, i: nat)
    requires i < |b.rows|
  {
    b.rows[i].status != Pending || Tally(b.sessions, Holds(i)) > 0
  }

  /** The attempts made and still owed for a recipient are paid for by the cut-off sending sessions, by the sending
      sessions that loaded while another was sending, and by one more once the recipient is taken care of. */
  ghost predicate Paid(b: Batch, i: nat) {
    && |b.attempts| == |b.rows| && i < |b.rows|
    && b.attempts[i] + Tally(b.sessions, Owes(i)) <= b.cutOffs + b.overlaps + One(TakenCareOf(b, i))
  }

  /** A step of one session that starts no new send, and lets go of a recipient only by settling its row or by being
      cut off. */
  lemma QuietStep(b: Batch, after: Batch, w: nat, s: Session, i: nat)
    requires Paid(b, i) && RowsLater(b.rows, after.rows) && |after.attempts| == |b.attempts|
    requires w < |b.sessions| && after.sessions == b.sessions[w := s]
    requires after.attempts[i] + One(Owes(i)(s)) <= b.attempts[i] + One(Owes(i)(b.sessions[w]))
    requires b.cutOffs <= after.cutOffs && b.overlaps <= after.overlaps
    requires Holds(i)(b.sessions[w]) ==>
               Holds(i)(s) || after.rows[i].status != Pending || after.cutOffs > b.cutOffs
    ensures Paid(after, i)
  {
    assert Later(b.rows[i], after.rows[i]);
    TallyUpdate(b.sessions, w, s, Owes(i));
    TallyUpdate(b.sessions, w, s, Holds(i));
  }

  /** Loading a recipient to send to: another session is sending, or nobody holds the recipient. */
  lemma LoadStep(b: Batch, after: Batch, w: nat, s: Session, i: nat)
    requires Paid(b, i) && after.rows == b.rows && after.attempts == b.attempts
    requires w < |b.sessions| && !b.sessions[w].Sending? && after.sessions == b.sessions[w := s]
    requires Holds(i)(s) && b.rows[i].status == Pending
    requires after.cutOffs == b.cutOffs && after.overlaps == b.overlaps + One(Tally(b.sessions, Trying) > 0)
    ensures Paid(after, i)
  {
    TallyUpdate(b.sessions, w, s, Owes(i));
    TallyMember(after.sessions, w, Holds(i));
    TallyOrder(b.sessions, Holds(i), Trying);
  }

  lemma StepKeepsPaid(b: Batch, e: Event, i: nat)
    requires Shape(b) && Paid(b, i)
    ensures Paid(Step(b, e), i)
  {
    match e
    case Open(deciding) => OpenKeepsPaid(b, deciding, i);
    case LoadScores(w) => PassiveKeepsPaid(b, e, w, i);
    case CommitScores(w, _) => PassiveKeepsPaid(b, e, w, i);
    case Judge(w) => PassiveKeepsPaid(b, e, w, i);
    case LoadWave(w) => LoadKeepsPaid(b, w, i);
    case Send(w, ok) => SendKeepsPaid(b, w, ok, i);
    case Commit(w) => CommitKeepsPaid(b, w, i);
    case Conclude(w) => PassiveKeepsPaid(b, e, w, i);
    case CutOff(w) => CutOffKeepsPaid(b, w, i);
    case Bounce(_, _) => CallerKeepsPaid(b, e, i);
    case Cancel => CallerKeepsPaid(b, e, i);
  }

  lemma OpenKeepsPaid(b: Batch, deciding: bool, i: nat)
    requires Paid(b, i)
    ensures Paid(AfterOpen(b, deciding), i)
  {
    TallyAppend(b.sessions, if deciding then Deciding else Dispatching, Owes(i));
    TallyAppend(b.sessions, if deciding then Deciding else Dispatching, Holds(i));
  }

  lemma CallerKeepsPaid(b: Batch, e: Event, i: nat)
    requires Shape(b) && Paid(b, i) && (e.Bounce? || e.Cancel?)
    ensures Paid(Step(b, e), i)
  {
    StepMovesOn(b, e);
    assert Later(b.rows[i], Step(b, e).rows[i]);
  }

  /** Steps of sessions that are not sending. */
  lemma PassiveStep(b: Batch, e: Event, w: nat) returns (s: Session)
    requires e == LoadScores(w) || (e.CommitScores? && e.w == w) || e == Judge(w) || e == Conclude(w)
    ensures var after := Step(b, e);
            after == b || (
              && w < |b.sessions| && !s.Sending? && !b.sessions[w].Sending? && after.sessions == b.sessions[w := s]
              && after.attempts == b.attempts && after.cutOffs == b.cutOffs && after.overlaps == b.overlaps)
  {
    s := At(Step(b, e), w);
  }

  lemma PassiveKeepsPaid(b: Batch, e: Event, w: nat, i: nat)
    requires Shape(b) && Paid(b, i)
    requires e == LoadScores(w) || (e.CommitScores? && e.w == w) || e == Judge(w) || e == Conclude(w)
    ensures Paid(Step(b, e), i)
  {
    StepMovesOn(b, e);
    var s := PassiveStep(b, e, w);
    var after := Step(b, e);
    if after != b {
      QuietStep(b, after, w, s, i);
    }
  }

  lemma LoadKeepsPaid(b: Batch, w: nat, i: nat)
    requires Shape(b) && Paid(b, i)
    ensures Paid(AfterLoadWave(b, w), i)
  {
    var s, after := At(b, w), AfterLoadWave(b, w);
    Unmoved(b.rows);
    if s.Ready? || s.Judged? {
      var wave := Wavefront(b, s);
      WaveMembers(b, s);
      if i in wave.due {
        LoadStep(b, after, w, wave, i);
      } else if s.Ready? && wave.due == [] {
        QuietStep(b, after, w, Finished, i);
      } else {
        assert i !in wave.due[0..];
        QuietStep(b, after, w, wave, i);
      }
    }
  }

  lemma SendKeepsPaid(b: Batch, w: nat, ok: bool, i: nat)
    requires Shape(b) && Paid(b, i)
    ensures Paid(AfterSend(b, w, ok), i)
  {
    var s := At(b, w);
    Unmoved(b.rows);
    if s.Sending? && s.tried < |s.due| && s.due[s.tried] < |b.attempts| {
      assert Shaped(b.sessions[w], b.rows);
      assert s.due[s.tried..] == [s.due[s.tried]] + s.due[s.tried + 1..];
      assert s.due[s.tried] !in s.due[s.tried + 1..];
      QuietStep(b, AfterSend(b, w, ok), w, At(AfterSend(b, w, ok), w), i);
    }
  }

  lemma CommitKeepsPaid(b: Batch, w: nat, i: nat)
    requires Shape(b) && Paid(b, i)
    ensures Paid(AfterCommit(b, w), i)
  {
    var s := At(b, w);
    if s.Sending? && s.tried == |s.due| {
      WrittenWaveLater(b.rows, s);
      assert WrittenWave(b.rows, s)[i].status == Outcome(s, i, b.rows[i].status);
      QuietStep(b, AfterCommit(b, w), w, At(AfterCommit(b, w), w), i);
    }
  }

  lemma CutOffKeepsPaid(b: Batch, w: nat, i: nat)
    requires Shape(b) && Paid(b, i)
    ensures Paid(AfterCutOff(b, w), i)
  {
    Unmoved(b.rows);
    if w < |b.sessions| {
      QuietStep(b, AfterCutOff(b, w), w, Finished, i);
    }
  }

  // ---------------------------------------------------------------- scores and the decision

  ghost predicate HasSample(rows: seq<Recipient>) {
    exists i :: 0 <= i < |rows| && rows[i].role == InSample
  }

  ghost predicate PendingScored(rows: seq<Recipient>) {
    forall i | 0 <= i < |rows| && rows[i].status == Pending :: rows[i].score.Some?
  }

  /** Once anyone is in the sample, the sample and whoever is pending are scored; a probing batch has a sample. */
  ghost predicate Scored(rows: seq<Recipient>, status: BatchStatus) {
    && SampleScored(rows)
    && (HasSample(rows) ==> PendingScored(rows))
    && (status == BatchProbing ==> HasSample(rows))
  }

  /** The sample a decision goes by was scored when it was read. */
  ghost predicate JudgedScored(ss: seq<Session>) {
    forall k | 0 <= k < |ss| && ss[k].Judged? :: SampleScored(ss[k].seen)
  }

  lemma SameRoles(rows: seq<Recipient>, now: seq<Recipient>)
    requires RowsLater(rows, now) && SampleScored(rows) && (HasSample(rows) ==> PendingScored(rows))
    requires forall i | 0 <= i < |rows| :: now[i].role == rows[i].role
    ensures SampleScored(now) && (HasSample(now) ==> PendingScored(now)) && (HasSample(rows) ==> HasSample(now))
  {
    assert forall i | 0 <= i < |rows| :: Later(rows[i], now[i]);
    if i :| 0 <= i < |now| && now[i].role == InSample {
      assert rows[i].role == InSample;
    }
    if i :| 0 <= i < |rows| && rows[i].role == InSample {
      assert now[i].role == InSample;
    }
  }

  lemma WrittenScored(rows: seq<Recipient>, seen: seq<Recipient>, v: Validation, sampleSize: int)
    requires RowsLater(seen, rows) && SampleScored(rows)
    ensures var now := WrittenScores(rows, seen, v, sampleSize); SampleScored(now) && PendingScored(now)
  {
    var sample := SampleSet(seen, v, sampleSize);
    var now := WrittenScores(rows, seen, v, sampleSize);
    forall i | 0 <= i < |rows|
      ensures now[i].role == InSample || now[i].status == Pending ==> now[i].score.Some?
    {
      assert Later(seen[i], rows[i]);
      assert ScoreRows(seen, v, sampleSize)[i] == AssignRow(ScoreRow(seen[i], v), sample);
      RowScored(rows[i], seen[i], v, sample);
    }
  }

  lemma RowScored(stored: Recipient, seen: Recipient, v: Validation, sample: set<string>)
    requires Later(seen, stored) && (stored.role == InSample ==> stored.score.Some?)
    ensures var now := Written(stored, seen, AssignRow(ScoreRow(seen, v), sample));
            now.role == InSample || now.status == Pending ==> now.score.Some?
  {
  }

  lemma StepKeepsScored(b: Batch, e: Event)
    requires Shape(b) && Scored(b.rows, b.status)
    ensures Scored(Step(b, e).rows, Step(b, e).status)
  {
    match e
    case CommitScores(w, v) => CommitScoresKeepsScored(b, w, v);
    case Commit(w) => CommitKeepsScored(b, w);
    case Bounce(email, outcome) =>
      BounceMovesOn(b.rows, email, outcome);
      SameRoles(b.rows, BounceRows(b.rows, email, outcome));
    case Cancel =>
      CancelMovesOn(b.rows);
      SameRoles(b.rows, CancelRows(b.rows));
    case Conclude(w) =>
      if w < |b.sessions| {
        assert Shaped(b.sessions[w], b.rows);
      }
    case _ =>
  }

  lemma CommitScoresKeepsScored(b: Batch, w: nat, v: Validation)
    requires Shape(b) && Scored(b.rows, b.status)
    ensures Scored(AfterCommitScores(b, w, v).rows, AfterCommitScores(b, w, v).status)
  {
    if At(b, w).Scoring? {
      assert Shaped(b.sessions[w], b.rows);
      WrittenScored(b.rows, At(b, w).seen, v, b.sampleSize);
      if HasSample(b.rows) {
        CommitScoresMovesOn(b, w, v);
        SampleStays(b.rows, AfterCommitScores(b, w, v).rows);
      }
    }
  }

  lemma CommitKeepsScored(b: Batch, w: nat)
    requires Shape(b) && Scored(b.rows, b.status)
    ensures Scored(AfterCommit(b, w).rows, AfterCommit(b, w).status)
  {
    var s := At(b, w);
    if s.Sending? {
      assert Shaped(b.sessions[w], b.rows);
      if s.wave.SampleWave? {
        assert s.due[0] in s.due;
        assert b.rows[s.due[0]].role == InSample;
      }
      WrittenWaveLater(b.rows, s);
      SameRoles(b.rows, WrittenWave(b.rows, s));
    }
  }

  /** A step puts at most one session in place; one that has read the sample for a decision read it just now, and
      one that is releasing was so before or has just loaded the release. */
  lemma NewSession(b: Batch, e: Event) returns (w: nat, s: Session)
    ensures Step(b, e).sessions ==
            if w < |b.sessions| then b.sessions[w := s]
            else if w == |b.sessions| then b.sessions + [s]
            else b.sessions
    ensures w <= |b.sessions| && s.Judged? ==> s.seen == b.rows
    ensures w <= |b.sessions| && s.Sending? && !s.wave.SampleWave? ==>
              Step(b, e).decided || (w < |b.sessions| && b.sessions[w].Sending? && !b.sessions[w].wave.SampleWave?)
  {
    match e
    case Open(deciding) =>
      w := if Step(b, e) == b then |b.sessions| + 1 else |b.sessions|;
      s := if deciding then Deciding else Dispatching;
    case Bounce(_, _) => w, s := |b.sessions| + 1, Finished;
    case Cancel => w, s := |b.sessions| + 1, Finished;
    case _ => w, s := EventSession(b, e);
  }

  lemma EventSession(b: Batch, e: Event) returns (w: nat, s: Session)
    requires !e.Open? && !e.Bounce? && !e.Cancel?
    ensures Step(b, e).sessions == if w < |b.sessions| then b.sessions[w := s] else b.sessions
    ensures w != |b.sessions|
    ensures w < |b.sessions| && s.Judged? ==> s.seen == b.rows
    ensures w < |b.sessions| && s.Sending? && !s.wave.SampleWave? ==>
              Step(b, e).decided || (b.sessions[w].Sending? && !b.sessions[w].wave.SampleWave?)
  {
    w := e.w;
    s := At(Step(b, e), w);
    if w >= |b.sessions| || Step(b, e).sessions == b.sessions {
      w := |b.sessions| + 1;
    }
  }

  lemma StepKeepsJudged(b: Batch, e: Event)
    requires Scored(b.rows, b.status) && JudgedScored(b.sessions)
    ensures JudgedScored(Step(b, e).sessions)
  {
    var w, s := NewSession(b, e);
  }

  lemma SampleStays(rows: seq<Recipient>, now: seq<Recipient>)
    requires HasSample(rows) && RowsLater(rows, now)
    ensures HasSample(now)
  {
    var i :| 0 <= i < |rows| && rows[i].role == InSample;
    assert Later(rows[i], now[i]);
  }

  /** Before a release is loaded, only sample waves are under way, and nobody held has been tried. */
  ghost predicate HeldUntried(b: Batch) {
    && |b.attempts| == |b.rows|
    && (!b.decided ==> OnlySampleWaves(b.sessions))
    && (!b.decided ==> forall i | 0 <= i < |b.rows| && b.rows[i].role == Held :: b.attempts[i] == 0)
  }

  ghost predicate OnlySampleWaves(ss: seq<Session>) {
    forall k | 0 <= k < |ss| && ss[k].Sending? :: ss[k].wave.SampleWave?
  }

  lemma StepKeepsWaves(b: Batch, e: Event)
    requires !b.decided ==> OnlySampleWaves(b.sessions)
    ensures !Step(b, e).decided ==> OnlySampleWaves(Step(b, e).sessions)
  {
    DecidedStays(b, e);
    var w, s := NewSession(b, e);
  }

  lemma StepKeepsHeldUntried(b: Batch, e: Event)
    requires Shape(b) && HeldUntried(b)
    ensures HeldUntried(Step(b, e))
  {
    StepKeepsShape(b, e);
    StepKeepsWaves(b, e);
    StepMovesOn(b, e);
    DecidedStays(b, e);
    if e.Send? && !b.decided {
      SendTriesSample(b, e.w, e.ok);
    } else if !e.Send? {
      AttemptsKept(b, e);
    }
    forall i | 0 <= i < |b.rows| && Step(b, e).rows[i].role == Held
      ensures b.rows[i].role == Held
    {
      assert Later(b.rows[i], Step(b, e).rows[i]);
    }
  }

  lemma DecidedStays(b: Batch, e: Event)
    ensures b.decided ==> Step(b, e).decided
  {
  }

  lemma AttemptsKept(b: Batch, e: Event)
    requires !e.Send?
    ensures Step(b, e).attempts == b.attempts
  {
  }

  lemma SendTriesSample(b: Batch, w: nat, ok: bool)
    requires Shape(b) && OnlySampleWaves(b.sessions)
    ensures var after := AfterSend(b, w, ok);
            |after.attempts| == |b.attempts| &&
            forall i | 0 <= i < |b.rows| && b.rows[i].role == Held :: after.attempts[i] == b.attempts[i]
  {
    if w < |b.sessions| {
      assert Shaped(b.sessions[w], b.rows);
    }
  }

  // ---------------------------------------------------------------- whole runs

  ghost predicate Invariant(b: Batch) {
    && Shape(b) && Scored(b.rows, b.status) && JudgedScored(b.sessions) && HeldUntried(b)
    && forall i: nat | i < |b.rows| :: Paid(b, i)
  }

  lemma FreshInvariant(b: Batch)
    requires Fresh(b)
    ensures Invariant(b)
  {
    assert forall i: nat | i < |b.rows| :: Tally(b.sessions, Owes(i)) == 0;
  }

  lemma StepKeepsInvariant(b: Batch, e: Event)
    requires Invariant(b)
    ensures Invariant(Step(b, e))
  {
    StepKeepsShape(b, e);
    StepKeepsScored(b, e);
    StepKeepsJudged(b, e);
    StepKeepsHeldUntried(b, e);
    StepMovesOn(b, e);
    forall i: nat | i < |b.rows|
      ensures Paid(Step(b, e), i)
    {
      StepKeepsPaid(b, e, i);
    }
  }

  lemma {:induction false} RunKeepsInvariant(b: Batch, events: seq<Event>)
    requires Fresh(b)
    ensures Invariant(Run(b, events)) && RowsLater(b.rows, Run(b, events).rows)
    decreases |events|
  {
    if events == [] {
      FreshInvariant(b);
      Unmoved(b.rows);
    } else {
      var before, e := Run(b, events[..|events| - 1]), events[|events| - 1];
      RunKeepsInvariant(b, events[..|events| - 1]);
      StepKeepsInvariant(before, e);
      OneMoreStep(b.rows, before, e);
    }
  }

  /** A sending session that loads its rows while another is sending, or that is cut off. */
  predicate Disturbs(b: Batch, e: Event) {
    || (e.LoadWave? && Tally(b.sessions, Trying) > 0)
    || (e.CutOff? && Trying(At(b, e.w)))
  }

  ghost predicate Undisturbed(b: Batch, events: seq<Event>) {
    forall k | 0 <= k < |events| :: !Disturbs(Run(b, events[..k]), events[k])
  }

  /** Each recipient gets at most one send attempt, plus one for each sending session that was cut off before its
      commit and one for each that loaded its rows while another was sending. A row that is still pending and that
      no session holds has had none but those. */
  lemma AtMostOneAttempt(b: Batch, events: seq<Event>, i: nat)
    requires Fresh(b) && i < |b.rows|
    ensures var now := Run(b, events);
            && |now.attempts| == |now.rows| == |b.rows|
            && now.attempts[i] <= 1 + now.cutOffs + now.overlaps
            && (!TakenCareOf(now, i) ==> now.attempts[i] <= now.cutOffs + now.overlaps)
  {
    RunKeepsInvariant(b, events);
    assert Paid(Run(b, events), i);
  }

  lemma UndisturbedStep(b: Batch, e: Event)
    requires !Disturbs(b, e)
    ensures Step(b, e).cutOffs == b.cutOffs && Step(b, e).overlaps == b.overlaps
  {
  }

  lemma UndisturbedEarlier(b: Batch, events: seq<Event>)
    requires events != [] && Undisturbed(b, events)
    ensures Undisturbed(b, events[..|events| - 1]) && !Disturbs(Run(b, events[..|events| - 1]), events[|events| - 1])
  {
    var earlier := events[..|events| - 1];
    forall k | 0 <= k < |earlier|
      ensures !Disturbs(Run(b, earlier[..k]), earlier[k])
    {
      assert earlier[..k] == events[..k];
      assert !Disturbs(Run(b, events[..k]), events[k]);
    }
  }

  lemma {:induction false} UndisturbedCounts(b: Batch, events: seq<Event>)
    requires Fresh(b) && Undisturbed(b, events)
    ensures Run(b, events).cutOffs == 0 && Run(b, events).overlaps == 0
    decreases |events|
  {
    if events != [] {
      UndisturbedEarlier(b, events);
      UndisturbedCounts(b, events[..|events| - 1]);
      UndisturbedStep(Run(b, events[..|events| - 1]), events[|events| - 1]);
    }
  }

  /** Where no two sending sessions overlap and none is cut off, at most one attempt is made. */
  lemma OneAttemptUndisturbed(b: Batch, events: seq<Event>, i: nat)
    requires Fresh(b) && i < |b.rows| && Undisturbed(b, events)
    ensures |Run(b, events).attempts| == |b.rows| && Run(b, events).attempts[i] <= 1
  {
    AtMostOneAttempt(b, events, i);
    UndisturbedCounts(b, events);
  }

  /** Nobody held is sent to before a release was loaded. */
  lemma HeldUntilDecided(b: Batch, events: seq<Event>, i: nat)
    requires Fresh(b) && i < |b.rows|
    ensures var now := Run(b, events);
            && |now.attempts| == |now.rows| == |b.rows|
            && (!now.decided && now.rows[i].role == Held ==> now.attempts[i] == 0)
  {
    RunKeepsInvariant(b, events);
  }

  /** Once a batch is probing, or has any sample at all, every recipient still pending has a score. */
  lemma ProbingIsScored(b: Batch, events: seq<Event>, i: nat)
    requires Fresh(b) && i < |b.rows|
    ensures var now := Run(b, events);
            && |now.rows| == |b.rows|
            && ((now.status == BatchProbing || HasSample(now.rows)) && now.rows[i].status == Pending ==>
                  now.rows[i].score.Some?)
  {
    RunKeepsInvariant(b, events);
  }

  /** Settled statuses never go back to pending, nobody leaves the sample, and recipients are neither lost nor
      renamed, whatever stale rows are written. */
  lemma {:induction false} NeverPendingAgain(b: Batch, earlier: seq<Event>, later: seq<Event>)
    requires Fresh(b)
    ensures RowsLater(Run(b, earlier).rows, Run(b, earlier + later).rows)
    decreases |later|
  {
    if later == [] {
      assert earlier + later == earlier;
      Unmoved(Run(b, earlier).rows);
    } else {
      var n := |later| - 1;
      var between := earlier + later[..n];
      assert earlier + later == between + [later[n]];
      NeverPendingAgain(b, earlier, later[..n]);
      RunKeepsInvariant(b, between);
      RunOneMore(b, between, later[n]);
      OneMoreStep(Run(b, earlier).rows, Run(b, between), later[n]);
    }
  }

  lemma OneMoreStep(rows: seq<Recipient>, b: Batch, e: Event)
    requires Shape(b) && RowsLater(rows, b.rows)
    ensures RowsLater(rows, Step(b, e).rows)
  {
    StepMovesOn(b, e);
    LaterAgain(rows, b.rows, Step(b, e).rows);
  }

  /** In every reachable batch, a session that read the sample over the threshold loads only recipients that score
      strictly below every bounced one it read. */
  lemma ReachableDecisionSeparates(b: Batch, events: seq<Event>, w: nat, i: nat)
    requires Fresh(b) && At(Run(b, events), w).Judged?
    requires OverThreshold(At(Run(b, events), w).seen, b.threshold)
    requires i in Wavefront(Run(b, events), At(Run(b, events), w)).due
    ensures var now, seen := Run(b, events), At(Run(b, events), w).seen;
            && i < |now.rows| && now.rows[i].score.Some?
            && forall j | 0 <= j < |seen| && Bounced(seen[j]) ::
                 seen[j].score.Some? && now.rows[i].score.value < seen[j].score.value
  {
    var now := Run(b, events);
    var s := At(now, w);
    RunKeepsInvariant(b, events);
    RunKeepsThreshold(b, events);
    assert Shaped(now.sessions[w], now.rows) && SampleScored(now.sessions[w].seen);
    WaveMembers(now, s);
    ObservedInSample(s.seen);
    SampleStays(s.seen, now.rows);
    DecisionSeparates(s.seen, now.threshold, now.rows[i]);
  }

  lemma StepKeepsThreshold(b: Batch, e: Event)
    ensures Step(b, e).threshold == b.threshold && Step(b, e).sampleSize == b.sampleSize
  {
  }

  lemma {:induction false} RunKeepsThreshold(b: Batch, events: seq<Event>)
    ensures Run(b, events).threshold == b.threshold && Run(b, events).sampleSize == b.sampleSize
    decreases |events|
  {
    if events != [] {
      RunKeepsThreshold(b, events[..|events| - 1]);
      StepKeepsThreshold(Run(b, events[..|events| - 1]), events[|events| - 1]);
    }
  }

  lemma {:induction false} ObservedInSample(rows: seq<Recipient>)
    requires Count(rows, Observed) > 0
    ensures HasSample(rows)
  {
    var n := |rows| - 1;
    if Observed(rows[n]) {
      assert rows[n].role == InSample;
    } else {
      ObservedInSample(rows[..n]);
      var i :| 0 <= i < n && rows[..n][i].role == InSample;
      assert rows[i].role == InSample;
    }
  }

  /** Validation scores are probabilities. */
  ghost predicate ProbabilityScores(e: Event) {
    e.CommitScores? ==> forall email <- e.validation.scores :: 0.0 <= e.validation.scores[email] <= 1.0
  }

  ghost predicate AllInRange(b: Batch) {
    && ScoresInRange(b.rows)
    && (forall k | 0 <= k < |b.sessions| && b.sessions[k].Judged? :: ScoresInRange(b.sessions[k].seen))
  }

  lemma RowInRange(stored: Recipient, seen: Recipient, v: Validation, sample: set<string>)
    requires Later(seen, stored) && (stored.score.Some? ==> 0.0 <= stored.score.value <= 1.0)
    requires forall email <- v.scores :: 0.0 <= v.scores[email] <= 1.0
    ensures var score := Written(stored, seen, AssignRow(ScoreRow(seen, v), sample)).score;
            score.Some? ==> 0.0 <= score.value <= 1.0
  {
    var scored := AssignRow(ScoreRow(seen, v), sample);
    assert scored.score == seen.score || scored.score == Some(ScoreFor(v, seen.email));
  }

  lemma WrittenInRange(rows: seq<Recipient>, seen: seq<Recipient>, v: Validation, sampleSize: int)
    requires RowsLater(seen, rows) && ScoresInRange(rows)
    requires forall email <- v.scores :: 0.0 <= v.scores[email] <= 1.0
    ensures ScoresInRange(WrittenScores(rows, seen, v, sampleSize))
  {
    var now, sample := WrittenScores(rows, seen, v, sampleSize), SampleSet(seen, v, sampleSize);
    forall i | 0 <= i < |rows|
      ensures now[i].score.Some? ==> 0.0 <= now[i].score.value <= 1.0
    {
      assert Later(seen[i], rows[i]);
      assert ScoreRows(seen, v, sampleSize)[i] == AssignRow(ScoreRow(seen[i], v), sample);
      RowInRange(rows[i], seen[i], v, sample);
    }
  }

  lemma StepKeepsRange(b: Batch, e: Event)
    requires Shape(b) && AllInRange(b) && ProbabilityScores(e)
    ensures AllInRange(Step(b, e))
  {
    if e.CommitScores? {
      ScoresKeepRange(b, e.w, e.validation);
    } else {
      OtherScores(b, e);
      var w, s := NewSession(b, e);
    }
  }

  lemma ScoresKeepRange(b: Batch, w: nat, v: Validation)
    requires Shape(b) && AllInRange(b) && ProbabilityScores(CommitScores(w, v))
    ensures AllInRange(AfterCommitScores(b, w, v))
  {
    if At(b, w).Scoring? {
      assert Shaped(b.sessions[w], b.rows);
      WrittenInRange(b.rows, At(b, w).seen, v, b.sampleSize);
    }
  }

  lemma OtherScores(b: Batch, e: Event)
    requires !e.CommitScores?
    ensures |Step(b, e).rows| == |b.rows| && forall i | 0 <= i < |b.rows| :: Step(b, e).rows[i].score == b.rows[i].score
  {
  }

  /** All scores of every reachable batch, and all that any decision goes by, are probabilities, which is what the
      antitone decision asks for. */
  lemma {:induction false} ReachableScoresInRange(b: Batch, events: seq<Event>)
    requires Fresh(b) && forall e <- events :: ProbabilityScores(e)
    ensures AllInRange(Run(b, events))
    decreases |events|
  {
    if events != [] {
      assert forall e <- events[..|events| - 1] :: e in events;
      assert events[|events| - 1] in events;
      ReachableScoresInRange(b, events[..|events| - 1]);
      RunKeepsInvariant(b, events[..|events| - 1]);
      StepKeepsRange(Run(b, events[..|events| - 1]), events[|events| - 1]);
    }
  }
}
