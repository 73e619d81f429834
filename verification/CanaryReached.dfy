/** The ways in which a staged send falls short, each reached from one fresh batch of two recipients. */
module CanaryReached {
  import opened Wrappers
  import opened Text
  import opened Canary
  import opened CanarySessions
  import opened CanaryRuns
  import opened CanaryCreation
  import opened CanaryOverlap
  import opened CanarySampleSize
  import opened Sequences

  function Row(email: string): Recipient {
    Recipient(email, Held, Pending, None)
  }

  function TwoFresh(x: string, y: string): Batch {
    Batch([Row(x), Row(y)], BatchPending, [0, 0], [], 1, 0.5, false, 0, 0, 0)
  }

  lemma TwoFreshFresh(x: string, y: string)
    requires Lower(x) != Lower(y)
    ensures Fresh(TwoFresh(x, y)) && TwoPending(TwoFresh(x, y)) && RowsDistinct(TwoFresh(x, y).rows)
  {
  }

  lemma ThenRescored(b: Batch, now: Batch, v: Validation)
    requires LeadsTo(b, now)
    ensures LeadsTo(b, Rescored(now, v))
  {
    var n := |now.sessions|;
    OneStep(b, now, Open(false));
    OneStep(b, AfterOpen(now, false), LoadScores(n));
    OneStep(b, AfterLoadScores(AfterOpen(now, false), n), CommitScores(n, v));
  }

  /** Scored twice with different scores, the batch has both recipients in its sample of one. */
  lemma SampleOfTwo(x: string, y: string)
    requires Lower(x) != Lower(y)
    ensures exists now :: LeadsTo(TwoFresh(x, y), now) && Count(now.rows, Sampled) == 2 && now.sampleSize == 1
  {
    var b := TwoFresh(x, y);
    TwoFreshFresh(x, y);
    Start(b);
    ThenRescored(b, b, Favouring(x));
    ThenRescored(b, Rescored(b, Favouring(x)), Favouring(y));
    RescoringGrowsSample(b, x, y);
    RescoredJoins(b, 0);
    RescoredJoins(Rescored(b, Favouring(x)), 1);
  }

  // ---------------------------------------------------------------- up to the decision

  /** After one scoring that finds the first recipient riskier. */
  function Scored(x: string, y: string): Batch {
    Rescored(TwoFresh(x, y), Favouring(x))
  }

  lemma ScoredState(x: string, y: string)
    requires Lower(x) != Lower(y)
    ensures var b := Scored(x, y);
            && |b.rows| == 2 && b.sessions == [Ready] && b.attempts == [0, 0] && b.threshold == 0.5 && b.overlaps == 0
            && b.rows[0] == Row(x).(role := InSample, score := b.rows[0].score)
            && b.rows[1] == Row(y).(score := Some(DEFAULT_SCORE))
  {
    var b, v := TwoFresh(x, y), Favouring(x);
    TwoFreshFresh(x, y);
    TwoSurvivors(b.rows[0], b.rows[1], v);
    RescoredState(b, v);
    FavouredJoins(b.rows, 0);
    OneSampled(b.rows, Scored(x, y).rows, v);
    SecondScored(b.rows, v);
  }

  lemma OneSampled(rows: seq<Recipient>, now: seq<Recipient>, v: Validation)
    requires |rows| == 2 && RowsDistinct(rows) && now == WrittenScores(rows, rows, v, 1)
    requires rows[0].role == rows[1].role == Held && rows[0].status == rows[1].status == Pending && v.dead == {}
    requires Sampled(now[0])
    ensures !Sampled(now[1])
  {
    Unmoved(rows);
    ScoringAdds(rows, rows, v, 1);
    TwoSurvivors(rows[0], rows[1], v);
    assert rows == [rows[0], rows[1]];
    if Sampled(now[1]) {
      BothSampled(now);
    }
  }

  lemma SecondScored(rows: seq<Recipient>, v: Validation)
    requires |rows| == 2 && rows[0].status == rows[1].status == Pending && v.dead == {}
    ensures forall i | 0 <= i < 2 :: WrittenScores(rows, rows, v, 1)[i].score == Some(ScoreFor(v, rows[i].email))
  {
    forall i | 0 <= i < 2
      ensures ScoreRows(rows, v, 1)[i].score == Some(ScoreFor(v, rows[i].email))
    {
      assert ScoreRows(rows, v, 1)[i] == AssignRow(ScoreRow(rows[i], v), SampleSet(rows, v, 1));
      PendingScore(rows[i], v, SampleSet(rows, v, 1));
    }
  }

  lemma PendingScore(row: Recipient, v: Validation, sample: set<string>)
    requires row.status == Pending
    ensures AssignRow(ScoreRow(row, v), sample).score == Some(ScoreFor(v, row.email))
  {
  }

  lemma SampleWaits(b: Batch)
    requires |b.rows| == 2 && b.rows[0].role == InSample && b.rows[0].status == Pending && b.rows[1].role == Held
    ensures Indices(b.rows, SampleDue) != []
    ensures 0 in Wavefront(b, Ready).due && 1 !in Wavefront(b, Ready).due
  {
    IndicesMembers(b.rows, SampleDue);
  }

  /** A session sends the sample wave and commits it, with nothing in between. */
  lemma ThenUninterrupted(b: Batch, now: Batch, w: nat, accepted: set<string>)
    requires LeadsTo(b, now) && Loadable(AfterLoadWave(now, w), w)
    ensures LeadsTo(b, Uninterrupted(now, w, accepted))
  {
    ThenLoad(b, now, w);
    AllSends(b, AfterLoadWave(now, w), w, accepted);
    OneStep(b, SendAll(AfterLoadWave(now, w), w, accepted), Commit(w));
  }

  lemma LoadKeeps(b: Batch, w: nat)
    ensures AfterLoadWave(b, w).threshold == b.threshold
    ensures Tally(b.sessions, Trying) == 0 ==> AfterLoadWave(b, w).overlaps == b.overlaps
  {
  }

  lemma UninterruptedKeeps(b: Batch, w: nat, accepted: set<string>)
    requires Loadable(AfterLoadWave(b, w), w) && Tally(b.sessions, Trying) == 0
    ensures Uninterrupted(b, w, accepted).threshold == b.threshold
    ensures Uninterrupted(b, w, accepted).overlaps == b.overlaps
  {
    LoadKeeps(b, w);
  }

  lemma Probed(b: Batch, accepted: set<string>) returns (now: Batch)
    requires |b.rows| == 2 && b.sessions == [Ready] && b.attempts == [0, 0] && b.overlaps == 0
    requires b.rows[0].role == InSample && b.rows[0].status == Pending && b.rows[0].email in accepted
    requires b.rows[1].role == Held
    ensures Loadable(AfterLoadWave(b, 0), 0) && now == Uninterrupted(b, 0, accepted)
    ensures now.status == BatchProbing && now.attempts == [1, 0] && now.sessions == [Finished]
    ensures now.threshold == b.threshold && now.overlaps == 0
    ensures now.rows == [b.rows[0].(status := Sent), b.rows[1]]
  {
    SampleWaits(b);
    UninterruptedState(b, 0, accepted);
    now := Uninterrupted(b, 0, accepted);
    assert b.sessions[..0] == [];
    UninterruptedKeeps(b, 0, accepted);
    assert Wavefront(b, Ready).wave == SampleWave;
  }

  /** The first recipient is all that was observed, so the second is selected. */
  lemma SecondSelected(b: Batch)
    requires |b.rows| == 2 && b.threshold == 0.5 && b.rows[0].role == InSample && b.rows[0].status == Sent
    requires Due(b.rows[1], Held) && b.rows[1].score == Some(DEFAULT_SCORE)
    ensures Count(b.rows, Observed) > 0 && Selected(b.rows[1], VerdictOf(b.rows, b.threshold))
  {
    assert b.rows[..1][..0] == [];
    assert Count(b.rows[..1], Observed) == 1 && Count(b.rows[..1], Bounced) == 0;
    assert Count(b.rows, Observed) == 1 && Count(b.rows, Bounced) == 0;
    assert 0 as real / 1 as real == 0.0;
    assert VerdictOf(b.rows, b.threshold) == ReleaseBelow(1.1);
  }

  /** A probing batch whose release waits to be decided, with nobody held tried yet. */
  lemma ReleasingReached(x: string, y: string) returns (b: Batch)
    requires Lower(x) != Lower(y)
    ensures LeadsTo(TwoFresh(x, y), b) && Releasing(b, 1)
    ensures |b.rows| == 2 && b.attempts[1] == 0 && b.overlaps == 0
  {
    var first := TwoFresh(x, y);
    ScoredState(x, y);
    Start(first);
    ThenRescored(first, first, Favouring(x));
    b := Probed(Scored(x, y), {x});
    ThenUninterrupted(first, Scored(x, y), 0, {x});
    SecondSelected(b);
    assert b.sessions[..0] == [];
  }

  // ---------------------------------------------------------------- tried twice

  lemma LeadsOn(a: Batch, b: Batch, c: Batch)
    requires LeadsTo(a, b) && LeadsTo(b, c)
    ensures LeadsTo(a, c)
  {
    var first :| NothingCutOff(first) && Run(a, first) == b;
    var second :| NothingCutOff(second) && Run(b, second) == c;
    RunOn(a, first, second);
    assert NothingCutOff(first + second);
  }

  /** The endpoint and the scheduler both decide: the second recipient is tried twice, and nothing is cut off. */
  lemma TriedTwiceByOverlap(x: string, y: string)
    requires Lower(x) != Lower(y)
    ensures exists now :: LeadsTo(TwoFresh(x, y), now) && |now.attempts| == 2 && now.attempts[1] == 2
  {
    var b := ReleasingReached(x, y);
    DecidedTwice(b, 1);
    var now :| LeadsTo(b, now) && |now.attempts| == |b.rows| && now.attempts[1] == b.attempts[1] + 2;
    LeadsOn(TwoFresh(x, y), b, now);
  }

  /** A release is cut off before its commit: the second recipient is tried twice, and no sessions overlap. */
  lemma TriedTwiceByCutOff(x: string, y: string)
    requires Lower(x) != Lower(y)
    ensures exists sent, w, now ::
              && LeadsTo(TwoFresh(x, y), sent) && Trying(At(sent, w)) && LeadsTo(AfterCutOff(sent, w), now)
              && |now.attempts| == 2 && now.attempts[1] == 2 && now.overlaps == 0
  {
    var b := ReleasingReached(x, y);
    CutOffRepeatsSend(b, 1);
    var sent, w, now :|
      && LeadsTo(b, sent) && Trying(At(sent, w)) && LeadsTo(AfterCutOff(sent, w), now)
      && |now.attempts| == |b.rows| && now.attempts[1] == b.attempts[1] + 2 && now.overlaps == b.overlaps;
    LeadsOn(TwoFresh(x, y), b, sent);
  }

  // ---------------------------------------------------------------- a bounce overwritten

  /** Two sessions have loaded the sample wave and sent it. */
  function BothSent(b: Batch, accepted: set<string>): Batch
    requires Loadable(AfterLoadWave(AfterLoadWave(b, 0), 1), 0)
    requires Loadable(SendAll(AfterLoadWave(AfterLoadWave(b, 0), 1), 0, accepted), 1)
  {
    SendAll(SendAll(AfterLoadWave(AfterLoadWave(b, 0), 1), 0, accepted), 1, accepted)
  }

  lemma BothLoadedWave(b: Batch, i: nat)
    requires |b.attempts| == |b.rows| && b.sessions == [Ready, Ready] && i < |b.rows| && SampleDue(b.rows[i])
    ensures var loaded, wave := AfterLoadWave(AfterLoadWave(b, 0), 1), Wavefront(b, Ready);
            && loaded.sessions == [wave, wave] && loaded.rows == b.rows && loaded.attempts == b.attempts
            && Loadable(loaded, 0) && Loadable(loaded, 1) && NoDup(wave.due) && i in wave.due && wave.tried == 0
            && wave.wave == SampleWave && wave.blocked == {}
  {
    WaveMembers(b, Ready);
    IndicesMembers(b.rows, SampleDue);
    WavefrontLoadable(b, 0);
    var one := AfterLoadWave(b, 0);
    assert Wavefront(one, Ready) == Wavefront(b, Ready);
    WavefrontLoadable(one, 1);
  }

  lemma BothSentState(b: Batch, i: nat, accepted: set<string>)
    requires |b.attempts| == |b.rows| && b.sessions == [Ready, Ready] && i < |b.rows| && SampleDue(b.rows[i])
    requires b.rows[i].email in accepted
    ensures Loadable(AfterLoadWave(AfterLoadWave(b, 0), 1), 0)
    ensures Loadable(SendAll(AfterLoadWave(AfterLoadWave(b, 0), 1), 0, accepted), 1)
    ensures var s := BothSent(b, accepted);
            && s.rows == b.rows && |s.sessions| == 2
            && HasSent(s.sessions[0], i) && HasSent(s.sessions[1], i)
  {
    BothLoadedWave(b, i);
    var loaded, wave := AfterLoadWave(AfterLoadWave(b, 0), 1), Wavefront(b, Ready);
    assert wave.due[0..] == wave.due;
    SendAllState(loaded, 0, accepted);
    SendAllState(SendAll(loaded, 0, accepted), 1, accepted);
  }

  /** A sample session that has tried all of its recipients, and this one with success. */
  predicate HasSent(s: Session, i: nat) {
    s.Sending? && s.wave.SampleWave? && s.tried == |s.due| && i in s.due && i in s.accepted && i !in s.blocked
  }

  lemma ThenBothSent(first: Batch, b: Batch, i: nat, accepted: set<string>)
    requires LeadsTo(first, b)
    requires |b.attempts| == |b.rows| && b.sessions == [Ready, Ready] && i < |b.rows| && SampleDue(b.rows[i])
    requires b.rows[i].email in accepted
    ensures Loadable(AfterLoadWave(AfterLoadWave(b, 0), 1), 0)
    ensures Loadable(SendAll(AfterLoadWave(AfterLoadWave(b, 0), 1), 0, accepted), 1)
    ensures LeadsTo(first, BothSent(b, accepted))
  {
    BothSentState(b, i, accepted);
    var loaded := AfterLoadWave(AfterLoadWave(b, 0), 1);
    ThenLoad(first, b, 0);
    ThenLoad(first, AfterLoadWave(b, 0), 1);
    AllSends(first, loaded, 0, accepted);
    AllSends(first, SendAll(loaded, 0, accepted), 1, accepted);
  }

  /** One session commits, the bounce is recorded, and then the other session commits over it. */
  lemma OneCommitsThenTheOther(b: Batch, i: nat)
    requires i < |b.rows| && |b.sessions| == 2 && HasSent(b.sessions[0], i) && HasSent(b.sessions[1], i)
    ensures var bounced := AfterBounce(AfterCommit(b, 0), b.rows[i].email, HardBounce);
            && |bounced.rows| == |b.rows| && bounced.rows[i].status == HardBounce
            && |AfterCommit(bounced, 1).rows| == |b.rows|
            && AfterCommit(bounced, 1).rows[i].status == Sent
  {
  }

  /** A hard bounce of a sampled recipient is recorded, and lost again when a second session commits its own send. */
  lemma BounceOverwritten(x: string, y: string)
    requires Lower(x) != Lower(y)
    ensures exists bounced :: LeadsTo(TwoFresh(x, y), bounced) && |bounced.rows| == 2 &&
                              bounced.rows[0].status == HardBounce && |AfterCommit(bounced, 1).rows| == 2 &&
                              AfterCommit(bounced, 1).rows[0].status == Sent
  {
    var first := TwoFresh(x, y);
    TwiceScoredState(x, y);
    Start(first);
    ThenRescored(first, first, Favouring(x));
    ThenRescored(first, Rescored(first, Favouring(x)), Favouring(x));
    var bounced := OverwrittenFrom(first, Rescored(Rescored(first, Favouring(x)), Favouring(x)), 0);
  }

  lemma OverwrittenFrom(first: Batch, b: Batch, i: nat) returns (bounced: Batch)
    requires LeadsTo(first, b)
    requires |b.attempts| == |b.rows| && b.sessions == [Ready, Ready] && i < |b.rows| && SampleDue(b.rows[i])
    ensures LeadsTo(first, bounced) && |bounced.rows| == |b.rows| && bounced.rows[i].status == HardBounce
    ensures |AfterCommit(bounced, 1).rows| == |b.rows| && AfterCommit(bounced, 1).rows[i].status == Sent
  {
    var email := b.rows[i].email;
    ThenBothSent(first, b, i, {email});
    BothSentState(b, i, {email});
    bounced := OvertakenCommit(first, BothSent(b, {email}), i);
  }

  lemma OvertakenCommit(first: Batch, b: Batch, i: nat) returns (bounced: Batch)
    requires LeadsTo(first, b)
    requires i < |b.rows| && |b.sessions| == 2 && HasSent(b.sessions[0], i) && HasSent(b.sessions[1], i)
    ensures LeadsTo(first, bounced) && |bounced.rows| == |b.rows| && bounced.rows[i].status == HardBounce
    ensures |AfterCommit(bounced, 1).rows| == |b.rows| && AfterCommit(bounced, 1).rows[i].status == Sent
  {
    OneStep(first, b, Commit(0));
    OneStep(first, AfterCommit(b, 0), Bounce(b.rows[i].email, HardBounce));
    OneCommitsThenTheOther(b, i);
    bounced := AfterBounce(AfterCommit(b, 0), b.rows[i].email, HardBounce);
  }

  lemma TwiceScoredState(x: string, y: string)
    requires Lower(x) != Lower(y)
    ensures var b := Rescored(Rescored(TwoFresh(x, y), Favouring(x)), Favouring(x));
            && |b.rows| == 2 && b.attempts == [0, 0] && b.sessions == [Ready, Ready]
            && b.rows[0].email == x && SampleDue(b.rows[0])
  {
    TwoFreshFresh(x, y);
    ScoredState(x, y);
    RescoredJoins(TwoFresh(x, y), 0);
    AgainScored(Scored(x, y), x);
  }

  lemma AgainScored(once: Batch, x: string)
    requires TwoPending(once) && once.rows[0].email == x && Sampled(once.rows[0]) && once.sessions == [Ready]
    ensures var b := Rescored(once, Favouring(x));
            && |b.rows| == 2 && b.attempts == once.attempts && b.sessions == [Ready, Ready]
            && b.rows[0].email == x && SampleDue(b.rows[0])
  {
    TwoSurvivors(once.rows[0], once.rows[1], Favouring(x));
    assert once.rows == [once.rows[0], once.rows[1]];
    RescoredState(once, Favouring(x));
    RescoredJoins(once, 0);
  }
}
