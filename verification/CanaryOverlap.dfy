/** Sending sessions on their own, which is what the batch object's methods do, and sending sessions that overlap. */
module CanaryOverlap {
  import opened Wrappers
  import opened Text
  import opened Sequences
  import opened Sampling
  import opened Canary
  import opened CanarySessions

  // ---------------------------------------------------------------- a session on its own

  /** The session tries the rest of its recipients; `accepted` are the addresses whose send does not fail. */
  function SendAll(b: Batch, w: nat, accepted: set<string>): Batch
    requires Loadable(b, w)
    ensures var after := SendAll(b, w, accepted);
            && Loadable(after, w) && after == b.(attempts := after.attempts, sessions := after.sessions)
    decreases |b.sessions[w].due| - b.sessions[w].tried
  {
    var s := b.sessions[w];
    if s.tried == |s.due| then b
    else SendAll(AfterSend(b, w, b.rows[s.due[s.tried]].email in accepted), w, accepted)
  }

  /** Session `w` has loaded recipients of this batch. */
  predicate Loadable(b: Batch, w: nat) {
    && |b.attempts| == |b.rows| && w < |b.sessions| && b.sessions[w].Sending?
    && b.sessions[w].tried <= |b.sessions[w].due|
    && forall k | 0 <= k < |b.sessions[w].due| :: b.sessions[w].due[k] < |b.rows|
  }

  /** Every recipient not tried yet is tried once, and accepted by its address; no other session is touched. */
  lemma {:induction false} SendAllState(b: Batch, w: nat, accepted: set<string>)
    requires Loadable(b, w) && NoDup(b.sessions[w].due)
    ensures var s, after := b.sessions[w], SendAll(b, w, accepted);
            var rest := s.due[s.tried..];
            && after.sessions == b.sessions[w := s.(tried := |s.due|, accepted := after.sessions[w].accepted)]
            && (forall i :: i in after.sessions[w].accepted <==>
                  i in s.accepted || (i in rest && i < |b.rows| && b.rows[i].email in accepted))
            && (forall i: nat | i < |b.rows| :: after.attempts[i] == b.attempts[i] + One(i in rest))
    decreases |b.sessions[w].due| - b.sessions[w].tried
  {
    var s := b.sessions[w];
    if s.tried < |s.due| {
      var next := AfterSend(b, w, b.rows[s.due[s.tried]].email in accepted);
      NextDue(s.due, s.tried);
      OneSend(b, w, b.rows[s.due[s.tried]].email in accepted);
      SendAllState(next, w, accepted);
      assert next.sessions[w := SendAll(next, w, accepted).sessions[w]]
          == b.sessions[w := SendAll(next, w, accepted).sessions[w]];
    }
  }

  lemma NextDue(due: seq<nat>, k: nat)
    requires k < |due| && NoDup(due)
    ensures forall i :: i in due[k..] <==> i == due[k] || i in due[k + 1..]
    ensures due[k] !in due[k + 1..]
  {
    assert due[k..] == [due[k]] + due[k + 1..];
  }

  lemma OneSend(b: Batch, w: nat, ok: bool)
    requires Loadable(b, w) && b.sessions[w].tried < |b.sessions[w].due|
    ensures var s, after := b.sessions[w], AfterSend(b, w, ok);
            var i := s.due[s.tried];
            && Loadable(after, w) && after.rows == b.rows
            && after.sessions == b.sessions[w := s.(tried := s.tried + 1,
                                                    accepted := if ok then s.accepted + {i} else s.accepted)]
            && after.attempts == b.attempts[i := b.attempts[i] + 1]
  {
  }

  /** A session from loading its rows to committing them, with nothing in between. */
  function Uninterrupted(b: Batch, w: nat, accepted: set<string>): Batch
    requires Loadable(AfterLoadWave(b, w), w)
  {
    AfterCommit(SendAll(AfterLoadWave(b, w), w, accepted), w)
  }

  lemma WavefrontLoadable(b: Batch, w: nat)
    requires |b.attempts| == |b.rows| && w < |b.sessions|
    requires b.sessions[w].Judged? || (b.sessions[w].Ready? && Indices(b.rows, SampleDue) != [])
    ensures AfterLoadWave(b, w).sessions == b.sessions[w := Wavefront(b, b.sessions[w])]
    ensures Loadable(AfterLoadWave(b, w), w) && NoDup(Wavefront(b, b.sessions[w]).due)
  {
    WaveMembers(b, b.sessions[w]);
  }

  /** The status an uninterrupted session leaves a row with. */
  function Settlement(wave: Session, i: nat, row: Recipient, accepted: set<string>): Status
    requires wave.Sending?
  {
    if i in wave.blocked then Blocked
    else if i !in wave.due then row.status
    else if row.email !in accepted then Skipped
    else if wave.wave.SampleWave? then Sent
    else Released
  }

  /** What an uninterrupted session writes: each recipient it loaded was tried once. */
  lemma UninterruptedState(b: Batch, w: nat, accepted: set<string>)
    requires |b.attempts| == |b.rows| && w < |b.sessions|
    requires b.sessions[w].Judged? || (b.sessions[w].Ready? && Indices(b.rows, SampleDue) != [])
    ensures Loadable(AfterLoadWave(b, w), w)
    ensures var wave, after := Wavefront(b, b.sessions[w]), Uninterrupted(b, w, accepted);
            && |after.rows| == |after.attempts| == |b.rows|
            && after.status == (if wave.wave.SampleWave? then BatchProbing else b.status)
            && after.sessions ==
               b.sessions[w := if wave.wave.SampleWave? then Finished else Concluding(wave.wave.outcome)]
            && (forall i: nat | i < |b.rows| ::
                  && after.attempts[i] == b.attempts[i] + One(i in wave.due)
                  && after.rows[i] == b.rows[i].(status := Settlement(wave, i, b.rows[i], accepted)))
  {
    WavefrontLoadable(b, w);
    SendAllState(AfterLoadWave(b, w), w, accepted);
    assert Wavefront(b, b.sessions[w]).due[0..] == Wavefront(b, b.sessions[w]).due;
  }

  /** The sample wave as the batch object's method sends it is one uninterrupted session. */
  lemma DispatchUninterrupted(b: Batch, w: nat, accepted: set<string>)
    requires |b.attempts| == |b.rows| && w < |b.sessions| && b.sessions[w].Ready?
    requires Indices(b.rows, SampleDue) != []
    ensures Loadable(AfterLoadWave(b, w), w)
    ensures var after := Uninterrupted(b, w, accepted);
            && after.rows == DispatchRows(b.rows, accepted)
            && after.attempts == Tried(b.attempts, b.rows, SampleDue)
            && after.status == BatchProbing
  {
    UninterruptedState(b, w, accepted);
    var after := Uninterrupted(b, w, accepted);
    SampleSettled(b, Wavefront(b, Ready), after.rows, after.attempts, accepted);
    assert Wavefront(b, Ready).wave.SampleWave?;
  }

  lemma SampleSettled(b: Batch, wave: Session, rows: seq<Recipient>, attempts: seq<nat>, accepted: set<string>)
    requires wave == Wavefront(b, Ready) && |rows| == |attempts| == |b.rows| == |b.attempts|
    requires forall i: nat | i < |b.rows| ::
               && attempts[i] == b.attempts[i] + One(i in wave.due)
               && rows[i] == b.rows[i].(status := Settlement(wave, i, b.rows[i], accepted))
    ensures rows == DispatchRows(b.rows, accepted) && attempts == Tried(b.attempts, b.rows, SampleDue)
  {
    WaveMembers(b, Ready);
  }

  /** So is the release or block that follows a decision on the rows just read. */
  lemma DecideUninterrupted(b: Batch, w: nat, accepted: set<string>)
    requires |b.attempts| == |b.rows| && w < |b.sessions| && b.sessions[w] == Judged(b.rows)
    requires Count(b.rows, Observed) > 0
    ensures Loadable(AfterLoadWave(b, w), w)
    ensures var verdict, after := VerdictOf(b.rows, b.threshold), AfterConclude(Uninterrupted(b, w, accepted), w);
            && after.rows == DecideRows(b.rows, b.threshold, accepted)
            && after.attempts == Tried(b.attempts, b.rows, row => Selected(row, verdict))
            && after.status == DecidedStatus(verdict)
  {
    UninterruptedState(b, w, accepted);
    var done := Uninterrupted(b, w, accepted);
    assert Concludes(b, done, w);
    SettledRows(b, accepted, done.rows);
    SettledAttempts(b, done.attempts);
  }

  predicate Concludes(b: Batch, done: Batch, w: nat) {
    At(done, w) == Concluding(DecidedStatus(VerdictOf(b.rows, b.threshold)))
  }

  lemma SettledRows(b: Batch, accepted: set<string>, rows: seq<Recipient>)
    requires Count(b.rows, Observed) > 0 && |rows| == |b.rows|
    requires forall i: nat | i < |b.rows| ::
               rows[i] == b.rows[i].(status := Settlement(Wavefront(b, Judged(b.rows)), i, b.rows[i], accepted))
    ensures rows == DecideRows(b.rows, b.threshold, accepted)
  {
    WaveMembers(b, Judged(b.rows));
    forall i: nat | i < |b.rows|
      ensures |DecideRows(b.rows, b.threshold, accepted)| == |rows|
      ensures rows[i] == DecideRows(b.rows, b.threshold, accepted)[i]
    {
      DecidedRow(b.rows, b.threshold, accepted, i);
    }
  }

  lemma SettledAttempts(b: Batch, attempts: seq<nat>)
    requires |b.attempts| == |b.rows| == |attempts|
    requires forall i: nat | i < |b.rows| ::
               attempts[i] == b.attempts[i] + One(i in Wavefront(b, Judged(b.rows)).due)
    ensures var verdict := VerdictOf(b.rows, b.threshold);
            attempts == Tried(b.attempts, b.rows, row => Selected(row, verdict))
  {
    WaveMembers(b, Judged(b.rows));
  }

  lemma DecidedRow(rows: seq<Recipient>, threshold: real, accepted: set<string>, i: nat)
    requires i < |rows| && Count(rows, Observed) > 0
    ensures var verdict, row := VerdictOf(rows, threshold), rows[i];
            && |DecideRows(rows, threshold, accepted)| == |rows|
            && DecideRows(rows, threshold, accepted)[i] ==
                 if !Due(row, Held) then row
                 else if !Selected(row, verdict) then row.(status := Blocked)
                 else row.(status := if row.email in accepted then Released else Skipped)
  {
  }

  // ---------------------------------------------------------------- two sessions at once

  /** Some run leads there in which nothing is cut off. */
  ghost predicate LeadsTo(b: Batch, now: Batch) {
    exists events :: NothingCutOff(events) && Run(b, events) == now
  }

  predicate NothingCutOff(events: seq<Event>) {
    forall e <- events :: !e.CutOff?
  }

  lemma Start(b: Batch)
    ensures LeadsTo(b, b)
  {
    assert Run(b, []) == b;
  }

  lemma OneStep(b: Batch, now: Batch, e: Event)
    requires LeadsTo(b, now) && !e.CutOff?
    ensures LeadsTo(b, Step(now, e))
  {
    var events :| NothingCutOff(events) && Run(b, events) == now;
    RunOneMore(b, events, e);
    assert NothingCutOff(events + [e]);
  }

  lemma ThenOpen(b: Batch, now: Batch)
    requires LeadsTo(b, now)
    ensures LeadsTo(b, AfterOpen(now, true))
  {
    OneStep(b, now, Open(true));
  }

  lemma ThenJudge(b: Batch, now: Batch, w: nat)
    requires LeadsTo(b, now)
    ensures LeadsTo(b, AfterJudge(now, w))
  {
    OneStep(b, now, Judge(w));
  }

  lemma ThenLoad(b: Batch, now: Batch, w: nat)
    requires LeadsTo(b, now)
    ensures LeadsTo(b, AfterLoadWave(now, w))
  {
    OneStep(b, now, LoadWave(w));
  }

  lemma ThenSend(b: Batch, now: Batch, w: nat, ok: bool)
    requires LeadsTo(b, now)
    ensures LeadsTo(b, AfterSend(now, w, ok))
  {
    OneStep(b, now, Send(w, ok));
  }

  lemma {:induction false} AllSends(b: Batch, now: Batch, w: nat, accepted: set<string>)
    requires LeadsTo(b, now) && Loadable(now, w)
    ensures LeadsTo(b, SendAll(now, w, accepted))
    decreases |now.sessions[w].due| - now.sessions[w].tried
  {
    var s := now.sessions[w];
    if s.tried < |s.due| {
      var ok := now.rows[s.due[s.tried]].email in accepted;
      ThenSend(b, now, w, ok);
      AllSends(b, AfterSend(now, w, ok), w, accepted);
    }
  }

  /** Both sessions have found the batch probing, read the sample and loaded the release. */
  function BothLoaded(b: Batch): Batch {
    var release := Wavefront(b, Judged(b.rows));
    b.(sessions := b.sessions + [release, release], decided := true,
       overlaps := b.overlaps + One(release.due != [] && Tally(b.sessions, Trying) > 0) + One(release.due != []))
  }

  lemma BothJudge(b: Batch)
    requires b.status == BatchProbing && Count(b.rows, Observed) > 0
    ensures LeadsTo(b, b.(sessions := b.sessions + [Judged(b.rows), Judged(b.rows)]))
  {
    var n := |b.sessions|;
    Start(b);
    ThenOpen(b, b);
    var one := b.(sessions := b.sessions + [Deciding]);
    ThenOpen(b, one);
    var two := b.(sessions := b.sessions + [Deciding, Deciding]);
    assert one.sessions + [Deciding] == two.sessions;
    ThenJudge(b, two, n);
    var three := b.(sessions := b.sessions + [Judged(b.rows), Deciding]);
    assert two.sessions[n := Judged(b.rows)] == three.sessions;
    ThenJudge(b, three, n + 1);
    assert three.sessions[n + 1 := Judged(b.rows)] == b.sessions + [Judged(b.rows), Judged(b.rows)];
  }

  function OneLoaded(b: Batch): Batch {
    var release := Wavefront(b, Judged(b.rows));
    b.(sessions := b.sessions + [release, Judged(b.rows)], decided := true,
       overlaps := b.overlaps + One(release.due != [] && Tally(b.sessions, Trying) > 0))
  }

  lemma FirstLoad(b: Batch)
    ensures AfterLoadWave(b.(sessions := b.sessions + [Judged(b.rows), Judged(b.rows)]), |b.sessions|) == OneLoaded(b)
  {
    var n, judged := |b.sessions|, Judged(b.rows);
    var two := b.(sessions := b.sessions + [judged, judged]);
    assert Wavefront(two, judged) == Wavefront(b, judged);
    assert two.sessions[n := Wavefront(b, judged)] == OneLoaded(b).sessions;
    TallyAppend(b.sessions, judged, Trying);
    TallyAppend(b.sessions + [judged], judged, Trying);
    assert b.sessions + [judged] + [judged] == two.sessions;
  }

  lemma SecondLoad(b: Batch)
    ensures AfterLoadWave(OneLoaded(b), |b.sessions| + 1) == BothLoaded(b)
  {
    var n, judged, one := |b.sessions|, Judged(b.rows), OneLoaded(b);
    var release := Wavefront(b, judged);
    assert Wavefront(one, judged) == release;
    assert one.sessions[n + 1 := release] == b.sessions + [release, release];
    if release.due != [] {
      TallyMember(one.sessions, n, Trying);
    }
  }

  lemma BothLoad(b: Batch)
    requires b.status == BatchProbing && Count(b.rows, Observed) > 0
    ensures LeadsTo(b, BothLoaded(b))
  {
    BothJudge(b);
    FirstLoad(b);
    ThenLoad(b, b.(sessions := b.sessions + [Judged(b.rows), Judged(b.rows)]), |b.sessions|);
    SecondLoad(b);
    ThenLoad(b, OneLoaded(b), |b.sessions| + 1);
  }

  /** Two loaded sessions that send all they hold try it twice. */
  lemma BothSend(b: Batch, i: nat)
    requires |b.attempts| == |b.rows| && i in Wavefront(b, Judged(b.rows)).due
    ensures Loadable(BothLoaded(b), |b.sessions|) && i < |b.rows|
    ensures Loadable(SendAll(BothLoaded(b), |b.sessions|, {}), |b.sessions| + 1)
    ensures SendAll(SendAll(BothLoaded(b), |b.sessions|, {}), |b.sessions| + 1, {}).attempts[i] == b.attempts[i] + 2
  {
    var n, both := |b.sessions|, BothLoaded(b);
    var due := Wavefront(b, Judged(b.rows)).due;
    WaveMembers(b, Judged(b.rows));
    assert due[0..] == due;
    SendAllState(both, n, {});
    SendAllState(SendAll(both, n, {}), n + 1, {});
  }

  /** The decide endpoint and the scheduler both find the batch probing and load the same release: every recipient it
      selects is tried twice, though nothing is cut off. */
  lemma DecidedTwice(b: Batch, i: nat)
    requires |b.attempts| == |b.rows| && i < |b.rows| && b.status == BatchProbing
    requires Count(b.rows, Observed) > 0 && Selected(b.rows[i], VerdictOf(b.rows, b.threshold))
    ensures exists now :: LeadsTo(b, now) && |now.attempts| == |b.rows| && now.attempts[i] == b.attempts[i] + 2
  {
    var n := |b.sessions|;
    WaveMembers(b, Judged(b.rows));
    BothLoad(b);
    BothSend(b, i);
    var once := SendAll(BothLoaded(b), n, {});
    AllSends(b, BothLoaded(b), n, {});
    AllSends(b, once, n + 1, {});
    assert LeadsTo(b, SendAll(once, n + 1, {}));
  }

  /** The batch is probing, its verdict selects recipient `i`, and nothing is being sent. */
  ghost predicate Releasing(b: Batch, i: nat) {
    && |b.attempts| == |b.rows| && i < |b.rows| && b.status == BatchProbing
    && Count(b.rows, Observed) > 0 && Selected(b.rows[i], VerdictOf(b.rows, b.threshold))
    && Tally(b.sessions, Trying) == 0
  }

  function AloneLoaded(b: Batch): Batch {
    b.(sessions := b.sessions + [Wavefront(b, Judged(b.rows))], decided := true)
  }

  lemma AloneLoads(b: Batch, i: nat)
    requires Releasing(b, i)
    ensures LeadsTo(b, AloneLoaded(b))
  {
    var n, judged := |b.sessions|, Judged(b.rows);
    Start(b);
    ThenOpen(b, b);
    var one := b.(sessions := b.sessions + [Deciding]);
    ThenJudge(b, one, n);
    var two := b.(sessions := b.sessions + [judged]);
    assert one.sessions[n := judged] == two.sessions;
    ThenLoad(b, two, n);
    assert Wavefront(two, judged) == Wavefront(b, judged);
    assert two.sessions[n := Wavefront(b, judged)] == AloneLoaded(b).sessions;
    TallyAppend(b.sessions, judged, Trying);
  }

  /** A session that decides on its own tries the recipient once; being cut off then takes back nothing. */
  lemma SentThenCutOff(b: Batch, i: nat) returns (sent: Batch)
    requires Releasing(b, i)
    ensures LeadsTo(b, sent) && Trying(At(sent, |b.sessions|))
    ensures var after := AfterCutOff(sent, |b.sessions|);
            && Releasing(after, i) && after.attempts[i] == b.attempts[i] + 1 && after.overlaps == b.overlaps
            && |after.rows| == |b.rows|
  {
    var n, loaded := |b.sessions|, AloneLoaded(b);
    AloneLoads(b, i);
    var due := Wavefront(b, Judged(b.rows)).due;
    WaveMembers(b, Judged(b.rows));
    assert due[0..] == due;
    sent := SendAll(loaded, n, {});
    SendAllState(loaded, n, {});
    AllSends(b, loaded, n, {});
    TallyAppend(b.sessions, Finished, Trying);
    assert sent.sessions[n := Finished] == b.sessions + [Finished];
  }

  /** A release that is cut off after its sends is loaded again by the next session, without any overlap: every
      recipient it selects is tried twice. */
  lemma CutOffRepeatsSend(b: Batch, i: nat)
    requires Releasing(b, i)
    ensures exists sent, w, now ::
              && LeadsTo(b, sent) && Trying(At(sent, w)) && LeadsTo(AfterCutOff(sent, w), now)
              && |now.attempts| == |b.rows| && now.attempts[i] == b.attempts[i] + 2 && now.overlaps == b.overlaps
  {
    var sent := SentThenCutOff(b, i);
    var after := AfterCutOff(sent, |b.sessions|);
    var again := SentThenCutOff(after, i);
    assert LeadsTo(AfterCutOff(sent, |b.sessions|), again);
  }

  /** Cancelling a batch while a session is sending stops none of its sends, and its commit writes over the
      cancelled rows. */
  lemma CancelTooLate(b: Batch, w: nat, accepted: set<string>, i: nat)
    requires Loadable(b, w) && NoDup(b.sessions[w].due) && i in b.sessions[w].due[b.sessions[w].tried..]
    ensures Loadable(AfterCancel(b), w) && i < |b.rows|
    ensures var done := AfterCommit(SendAll(AfterCancel(b), w, accepted), w);
            && |done.attempts| == |done.rows| == |b.rows|
            && done.attempts[i] == b.attempts[i] + 1
            && (i !in b.sessions[w].blocked ==> done.rows[i].status in {Sent, Released, Skipped})
  {
    var s, cancelled := b.sessions[w], AfterCancel(b);
    CancelKeepsSessions(b);
    var k :| 0 <= k < |s.due[s.tried..]| && s.due[s.tried..][k] == i;
    assert s.due[s.tried + k] == i;
    SendAllState(cancelled, w, accepted);
    CommitWrites(SendAll(cancelled, w, accepted), w, i);
  }

  lemma CancelKeepsSessions(b: Batch)
    ensures AfterCancel(b).sessions == b.sessions && AfterCancel(b).attempts == b.attempts
    ensures |AfterCancel(b).rows| == |b.rows|
  {
  }

  lemma CommitWrites(b: Batch, w: nat, i: nat)
    requires Loadable(b, w) && b.sessions[w].tried == |b.sessions[w].due| && i < |b.rows|
    ensures AfterCommit(b, w).attempts == b.attempts && |AfterCommit(b, w).rows| == |b.rows|
    ensures AfterCommit(b, w).rows[i].status == Outcome(b.sessions[w], i, b.rows[i].status)
  {
  }
}
