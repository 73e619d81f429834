/** The database sessions that move a staged send along. A session reads rows, awaits validation or sends, and
    writes what it changed when it commits, without locks: any number of them may be under way at once. */
module CanarySessions {
  import opened Wrappers
  import opened Text
  import opened Sequences
  import opened Sampling
  import opened Canary

  /** The sample wave, or a release that ends with this batch status. */
  datatype Wave = SampleWave | ReleaseWave(outcome: BatchStatus)

  /** How far a session is. Where it goes by rows it read earlier, it holds them as it saw them. */
  datatype Session =
    | Dispatching
    | Scoring(seen: seq<Recipient>)
    | Ready
    | Deciding
    | Judged(seen: seq<Recipient>)
    | Sending(wave: Wave, due: seq<nat>, tried: nat, accepted: set<nat>, blocked: set<nat>)
    | Concluding(outcome: BatchStatus)
    | Finished

  /** The stored batch, the send attempts made for each recipient, the sessions ever opened, and what happened so
      far: whether a release was loaded, how many sending sessions were cut off, how many loaded their rows while
      another was sending, and how often scores were written. */
  datatype Batch = Batch(rows: seq<Recipient>, status: BatchStatus, attempts: seq<nat>, sessions: seq<Session>,
                         sampleSize: int, threshold: real,
                         decided: bool, cutOffs: nat, overlaps: nat, scorings: nat)

  datatype Event =
    | Open(deciding: bool)
    | LoadScores(w: nat)
    | CommitScores(w: nat, validation: Validation)
    | Judge(w: nat)
    | LoadWave(w: nat)
    | Send(w: nat, ok: bool)
    | Commit(w: nat)
    | Conclude(w: nat)
    | CutOff(w: nat)
    | Bounce(email: string, outcome: Status)
    | Cancel

  // ---------------------------------------------------------------- sessions

  /** The session has rows to send to. */
  predicate Trying(s: Session) {
    s.Sending? && s.due != []
  }

  /** The session loaded recipient `i` to send to. */
  function Holds(i: nat): Session -> bool {
    (s: Session) => s.Sending? && i in s.due
  }

  /** The session has yet to try recipient `i`. */
  function Owes(i: nat): Session -> bool {
    (s: Session) => s.Sending? && s.tried <= |s.due| && i in s.due[s.tried..]
  }

  function Tally(ss: seq<Session>, p: Session -> bool): nat {
    if ss == [] then 0 else Tally(ss[..|ss| - 1], p) + One(p(ss[|ss| - 1]))
  }

  function One(b: bool): nat {
    if b then 1 else 0
  }

  lemma {:induction false} TallyUpdate(ss: seq<Session>, w: nat, s: Session, p: Session -> bool)
    requires w < |ss|
    ensures Tally(ss[w := s], p) + One(p(ss[w])) == Tally(ss, p) + One(p(s))
  {
    var n := |ss| - 1;
    if w < n {
      TallyUpdate(ss[..n], w, s, p);
      assert ss[w := s][..n] == ss[..n][w := s];
    } else {
      assert ss[w := s][..n] == ss[..n];
    }
  }

  lemma TallyAppend(ss: seq<Session>, s: Session, p: Session -> bool)
    ensures Tally(ss + [s], p) == Tally(ss, p) + One(p(s))
  {
    assert (ss + [s])[..|ss|] == ss;
  }

  lemma {:induction false} TallyOrder(ss: seq<Session>, p: Session -> bool, q: Session -> bool)
    requires forall s <- ss :: p(s) ==> q(s)
    ensures Tally(ss, p) <= Tally(ss, q)
  {
    if ss != [] {
      var n := |ss| - 1;
      assert forall s <- ss[..n] :: s in ss;
      assert ss[n] in ss;
      TallyOrder(ss[..n], p, q);
    }
  }

  lemma {:induction false} TallyMember(ss: seq<Session>, w: nat, p: Session -> bool)
    requires w < |ss| && p(ss[w])
    ensures Tally(ss, p) > 0
  {
    if w < |ss| - 1 {
      TallyMember(ss[..|ss| - 1], w, p);
    }
  }

  // ---------------------------------------------------------------- rows

  /** The numbers of the rows that satisfy `p`, in order. */
  function Indices(rows: seq<Recipient>, p: Recipient -> bool): seq<nat> {
    if rows == [] then []
    else Indices(rows[..|rows| - 1], p) + (if p(rows[|rows| - 1]) then [|rows| - 1] else [])
  }

  function IndexSet(rows: seq<Recipient>, p: Recipient -> bool): set<nat> {
    set i: nat | i < |rows| && p(rows[i])
  }

  lemma {:induction false} IndicesMembers(rows: seq<Recipient>, p: Recipient -> bool)
    ensures forall i: nat :: i in Indices(rows, p) <==> i < |rows| && p(rows[i])
    ensures forall k | 0 <= k < |Indices(rows, p)| :: Indices(rows, p)[k] < |rows|
  {
    if rows != [] {
      IndicesMembers(rows[..|rows| - 1], p);
    }
  }

  lemma {:induction false} IndicesDistinct(rows: seq<Recipient>, p: Recipient -> bool)
    ensures NoDup(Indices(rows, p))
  {
    if rows != [] {
      IndicesDistinct(rows[..|rows| - 1], p);
      IndicesMembers(rows[..|rows| - 1], p);
    }
  }

  /** What a commit leaves of a row: the fields the session changed are written over the stored ones. */
  function Written(stored: Recipient, seen: Recipient, changed: Recipient): Recipient {
    stored.(role := if changed.role != seen.role then changed.role else stored.role,
            status := if changed.status != seen.status then changed.status else stored.status,
            score := if changed.score != seen.score then changed.score else stored.score)
  }

  function WrittenScores(rows: seq<Recipient>, seen: seq<Recipient>, v: Validation, sampleSize: int)
    : (r: seq<Recipient>)
    requires |seen| == |rows|
    ensures |r| == |rows|
  {
    var scored := ScoreRows(seen, v, sampleSize);
    seq(|rows|, i requires 0 <= i < |rows| => Written(rows[i], seen[i], scored[i]))
  }

  /** The status a sending session gives a row: all of its rows were pending when it loaded them. */
  function Outcome(s: Session, i: nat, stored: Status): Status
    requires s.Sending?
  {
    if i in s.blocked then Blocked
    else if i !in s.due then stored
    else if i !in s.accepted then Skipped
    else if s.wave.SampleWave? then Sent
    else Released
  }

  function WrittenWave(rows: seq<Recipient>, s: Session): (r: seq<Recipient>)
    requires s.Sending?
    ensures |r| == |rows|
    ensures forall i: nat | i < |rows| :: r[i] == rows[i].(status := Outcome(s, i, rows[i].status))
  {
    seq(|rows|, (i: nat) requires i < |rows| => rows[i].(status := Outcome(s, i, rows[i].status)))
  }

  // ---------------------------------------------------------------- steps

  function At(b: Batch, w: nat): Session {
    if w < |b.sessions| then b.sessions[w] else Finished
  }

  function Put(b: Batch, w: nat, s: Session): Batch {
    if w < |b.sessions| then b.(sessions := b.sessions[w := s]) else b
  }

  /** The test a session selects the rows it sends to by. */
  function Chosen(b: Batch, s: Session): Recipient -> bool
    requires s.Ready? || s.Judged?
  {
    if s.Ready? then SampleDue
    else
      var verdict := VerdictOf(s.seen, b.threshold);
      row => Selected(row, verdict)
  }

  /** The session a loaded wave becomes: the sample wave, or the release or block that the verdict asks for. */
  function Wavefront(b: Batch, s: Session): Session
    requires s.Ready? || s.Judged?
  {
    var due := Indices(b.rows, Chosen(b, s));
    if s.Ready? then Sending(SampleWave, due, 0, {}, {})
    else
      Sending(ReleaseWave(DecidedStatus(VerdictOf(s.seen, b.threshold))), due, 0, {},
              IndexSet(b.rows, row => Due(row, Held) && !Chosen(b, s)(row)))
  }

  /** A wave holds each row that is chosen, once, and all of them are pending. */
  lemma WaveMembers(b: Batch, s: Session)
    requires s.Ready? || s.Judged?
    ensures var due := Wavefront(b, s).due;
            && NoDup(due) && (forall k | 0 <= k < |due| :: due[k] < |b.rows|)
            && (forall i: nat :: i in due <==> i < |b.rows| && Chosen(b, s)(b.rows[i]))
            && (forall i <- due :: b.rows[i].status == Pending)
  {
    IndicesDistinct(b.rows, Chosen(b, s));
    IndicesMembers(b.rows, Chosen(b, s));
    SelectedPending(b, s);
  }

  lemma SelectedPending(b: Batch, s: Session)
    requires s.Ready? || s.Judged?
    ensures forall row :: Chosen(b, s)(row) ==> row.status == Pending && (s.Ready? ==> row.role == InSample)
  {
  }

  /** A session opens on a batch it finds pending, or probing if it is to decide. */
  function AfterOpen(b: Batch, deciding: bool): Batch {
    if b.status != (if deciding then BatchProbing else BatchPending) then b
    else b.(sessions := b.sessions + [if deciding then Deciding else Dispatching])
  }

  function AfterLoadScores(b: Batch, w: nat): Batch {
    if !At(b, w).Dispatching? then b
    else Put(b, w, if Count(b.rows, IsPending) == 0 then Finished else Scoring(b.rows))
  }

  function AfterCommitScores(b: Batch, w: nat, v: Validation): Batch {
    if !At(b, w).Scoring? || |At(b, w).seen| != |b.rows| then b
    else
      var seen := At(b, w).seen;
      var survivors := Survivors(seen, v);
      Put(b, w, if survivors == [] then Finished else Ready)
        .(rows := WrittenScores(b.rows, seen, v, b.sampleSize),
          status := if survivors == [] then BatchBlocked else b.status, scorings := b.scorings + 1)
  }

  function AfterJudge(b: Batch, w: nat): Batch {
    if !At(b, w).Deciding? then b
    else Put(b, w, if Count(b.rows, Observed) == 0 then Concluding(BatchFailed) else Judged(b.rows))
  }

  function AfterLoadWave(b: Batch, w: nat): Batch {
    var s := At(b, w);
    if !s.Ready? && !s.Judged? then b
    else
      var wave := Wavefront(b, s);
      if s.Ready? && wave.due == [] then Put(b, w, Finished)
      else Put(b, w, wave).(decided := b.decided || s.Judged?,
                            overlaps := b.overlaps + One(wave.due != [] && Tally(b.sessions, Trying) > 0))
  }

  function AfterSend(b: Batch, w: nat, ok: bool): Batch {
    var s := At(b, w);
    if !s.Sending? || s.tried >= |s.due| || s.due[s.tried] >= |b.attempts| then b
    else
      var i := s.due[s.tried];
      Put(b, w, s.(tried := s.tried + 1, accepted := if ok then s.accepted + {i} else s.accepted))
        .(attempts := b.attempts[i := b.attempts[i] + 1])
  }

  function AfterCommit(b: Batch, w: nat): Batch {
    var s := At(b, w);
    if !s.Sending? || s.tried != |s.due| then b
    else Put(b, w, if s.wave.SampleWave? then Finished else Concluding(s.wave.outcome))
           .(rows := WrittenWave(b.rows, s), status := if s.wave.SampleWave? then BatchProbing else b.status)
  }

  function AfterConclude(b: Batch, w: nat): Batch {
    if At(b, w).Concluding? then Put(b, w, Finished).(status := At(b, w).outcome) else b
  }

  function AfterCutOff(b: Batch, w: nat): Batch {
    Put(b, w, Finished).(cutOffs := b.cutOffs + One(Trying(At(b, w))))
  }

  function AfterBounce(b: Batch, email: string, outcome: Status): Batch {
    b.(rows := BounceRows(b.rows, email, outcome))
  }

  function AfterCancel(b: Batch): Batch {
    if b.status in {BatchReleased, BatchBlocked, BatchCancelled} then b
    else b.(rows := CancelRows(b.rows), status := BatchCancelled)
  }

  /** One step of one session, or of a caller. A session that is not at this step stays as it is. */
  function Step(b: Batch, e: Event): Batch {
    match e
    case Open(deciding) => AfterOpen(b, deciding)
    case LoadScores(w) => AfterLoadScores(b, w)
    case CommitScores(w, v) => AfterCommitScores(b, w, v)
    case Judge(w) => AfterJudge(b, w)
    case LoadWave(w) => AfterLoadWave(b, w)
    case Send(w, ok) => AfterSend(b, w, ok)
    case Commit(w) => AfterCommit(b, w)
    case Conclude(w) => AfterConclude(b, w)
    case CutOff(w) => AfterCutOff(b, w)
    case Bounce(email, outcome) => AfterBounce(b, email, outcome)
    case Cancel => AfterCancel(b)
  }

  function Run(b: Batch, events: seq<Event>): Batch
    decreases |events|
  {
    if events == [] then b else Step(Run(b, events[..|events| - 1]), events[|events| - 1])
  }

  /** As created: everybody held, nobody scored or tried, only skipped recipients not pending, and no session yet. */
  ghost predicate Fresh(b: Batch) {
    && |b.attempts| == |b.rows| && b.sessions == []
    && b.status in {BatchPending, BatchBlocked}
    && !b.decided && b.cutOffs == 0 && b.overlaps == 0 && b.scorings == 0
    && forall i | 0 <= i < |b.rows| ::
         b.attempts[i] == 0 && b.rows[i].role == Held && b.rows[i].status in {Pending, Skipped} && b.rows[i].score.None?
  }

  lemma RunOneMore(b: Batch, events: seq<Event>, e: Event)
    ensures Run(b, events + [e]) == Step(Run(b, events), e)
  {
    assert (events + [e])[..|events|] == events;
  }

  lemma {:induction false} RunOn(b: Batch, first: seq<Event>, second: seq<Event>)
    ensures Run(b, first + second) == Run(Run(b, first), second)
    decreases |second|
  {
    if second == [] {
      assert first + second == first;
    } else {
      var n := |second| - 1;
      RunOn(b, first, second[..n]);
      JoinOneMore(first, second);
      RunOneMore(b, first + second[..n], second[n]);
      RunOneMore(Run(b, first), second[..n], second[n]);
    }
  }

  lemma JoinOneMore(first: seq<Event>, second: seq<Event>)
    requires second != []
    ensures var n := |second| - 1;
            first + second == first + second[..n] + [second[n]] && second == second[..n] + [second[n]]
  {
  }

  /** Sessions open only on a batch that waits for them, and once it is finished or cancelled none does. */
  lemma OpensIff(b: Batch, deciding: bool)
    ensures |AfterOpen(b, deciding).sessions| == |b.sessions| + 1 <==>
              b.status == (if deciding then BatchProbing else BatchPending)
    ensures b.status in {BatchReleased, BatchBlocked, BatchCancelled, BatchFailed} ==> AfterOpen(b, deciding) == b
  {
  }

  /** Cancelling leaves a finished batch alone; any other is cancelled, with all that is pending blocked. */
  lemma CancelledIff(b: Batch)
    ensures AfterCancel(b) == b <==> b.status in {BatchReleased, BatchBlocked, BatchCancelled}
    ensures b.status !in {BatchReleased, BatchBlocked, BatchCancelled} ==>
              && AfterCancel(b).status == BatchCancelled && |AfterCancel(b).rows| == |b.rows|
              && forall i | 0 <= i < |b.rows| ::
                   AfterCancel(b).rows[i].status == if b.rows[i].status == Pending then Blocked else b.rows[i].status
  {
  }

  /** A session that finds nothing pending to score ends; one whose recipients are all rejected blocks the batch. */
  lemma ScoringEnds(b: Batch, w: nat, v: Validation)
    requires w < |b.sessions|
    ensures b.sessions[w].Dispatching? && (forall row <- b.rows :: row.status != Pending) ==>
              AfterLoadScores(b, w).sessions[w] == Finished
    ensures b.sessions[w].Scoring? && |b.sessions[w].seen| == |b.rows| &&
            (forall row <- b.sessions[w].seen :: row.status != Pending || Lower(row.email) in v.dead) ==>
              AfterCommitScores(b, w, v).sessions[w] == Finished && AfterCommitScores(b, w, v).status == BatchBlocked
  {
    if b.sessions[w].Dispatching? && (forall row <- b.rows :: row.status != Pending) {
      NoneCounted(b.rows, IsPending);
    }
    if b.sessions[w].Scoring? &&
       (forall row <- b.sessions[w].seen :: row.status != Pending || Lower(row.email) in v.dead) {
      NoSurvivors(b.sessions[w].seen, v);
    }
  }

  lemma {:induction false} NoneCounted(rows: seq<Recipient>, p: Recipient -> bool)
    requires forall row <- rows :: !p(row)
    ensures Count(rows, p) == 0
  {
    if rows != [] {
      assert rows[|rows| - 1] in rows && forall row <- rows[..|rows| - 1] :: row in rows;
      NoneCounted(rows[..|rows| - 1], p);
    }
  }

  lemma {:induction false} NoSurvivors(rows: seq<Recipient>, v: Validation)
    requires forall row <- rows :: row.status != Pending || Lower(row.email) in v.dead
    ensures Survivors(rows, v) == []
  {
    if rows != [] {
      assert rows[|rows| - 1] in rows && forall row <- rows[..|rows| - 1] :: row in rows;
      NoSurvivors(rows[..|rows| - 1], v);
    }
  }

  /** A session that finds no trial to decide by fails the batch and sends nothing. */
  lemma NothingTriedFails(b: Batch, w: nat)
    requires w < |b.sessions| && b.sessions[w].Deciding? && forall row <- b.rows :: !Observed(row)
    ensures var after := AfterConclude(AfterJudge(b, w), w);
            after.status == BatchFailed && after.rows == b.rows && after.attempts == b.attempts
  {
    NoneCounted(b.rows, Observed);
  }
}
