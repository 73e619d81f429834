/** What the stored statuses say about the past: who was sent to, and what a bounce means for later decisions. */
module CanaryHistory {
  import opened Wrappers
  import opened Text
  import opened Canary
  import opened CanaryDecision
  import opened CanarySessions
  import opened CanaryRuns
  import opened CanaryMeaning

  // ---------------------------------------------------------------- statuses and sends

  /** The recipient's message went out. */
  predicate WentOut(status: Status) {
    status in {Sent, Delivered, HardBounce, SoftBounce, Released}
  }

  /** A session tries the recipient, and the mail server accepts the message. */
  predicate Accepts(b: Batch, e: Event, i: nat) {
    && e.Send? && e.ok && At(b, e.w).Sending?
    && At(b, e.w).tried < |At(b, e.w).due| && At(b, e.w).due[At(b, e.w).tried] == i
  }

  ghost predicate AcceptedBefore(b: Batch, events: seq<Event>, i: nat) {
    exists k: nat :: k < |events| && Accepts(Run(b, events[..k]), events[k], i)
  }

  /** Whoever's row, or whoever a session notes as accepted, is among the `known`. */
  ghost predicate OnlyKnown(b: Batch, known: iset<nat>) {
    && (forall i: nat | i < |b.rows| && WentOut(b.rows[i].status) :: i in known)
    && (forall w: nat | w < |b.sessions| && b.sessions[w].Sending? :: forall i <- b.sessions[w].accepted :: i in known)
  }

  ghost predicate SessionsKnown(ss: seq<Session>, known: iset<nat>) {
    forall w: nat | w < |ss| && ss[w].Sending? :: forall i <- ss[w].accepted :: i in known
  }

  lemma ReplacedKnown(ss: seq<Session>, w: nat, s: Session, known: iset<nat>)
    requires SessionsKnown(ss, known) && w < |ss| && (s.Sending? ==> forall i <- s.accepted :: i in known)
    ensures SessionsKnown(ss[w := s], known)
  {
  }

  lemma ScoresSendNobody(stored: Recipient, seen: Recipient, v: Validation, sample: set<string>)
    ensures var now := Written(stored, seen, AssignRow(ScoreRow(seen, v), sample));
            now.status == stored.status || now.status == Skipped
  {
  }

  lemma RescoredSendNobody(rows: seq<Recipient>, seen: seq<Recipient>, v: Validation, sampleSize: int)
    requires |seen| == |rows|
    ensures forall i: nat | i < |rows| && WentOut(WrittenScores(rows, seen, v, sampleSize)[i].status) ::
              WentOut(rows[i].status)
  {
    var sample := SampleSet(seen, v, sampleSize);
    forall i: nat | i < |rows| && WentOut(WrittenScores(rows, seen, v, sampleSize)[i].status)
      ensures WentOut(rows[i].status)
    {
      assert ScoreRows(seen, v, sampleSize)[i] == AssignRow(ScoreRow(seen[i], v), sample);
      ScoresSendNobody(rows[i], seen[i], v, sample);
    }
  }

  lemma CommitScoresKnown(b: Batch, w: nat, v: Validation, known: iset<nat>)
    requires OnlyKnown(b, known)
    ensures OnlyKnown(AfterCommitScores(b, w, v), known)
  {
    if At(b, w).Scoring? && |At(b, w).seen| == |b.rows| {
      var seen := At(b, w).seen;
      RescoredSendNobody(b.rows, seen, v, b.sampleSize);
      ReplacedKnown(b.sessions, w, if Survivors(seen, v) == [] then Finished else Ready, known);
    }
  }

  lemma CommitKnown(b: Batch, w: nat, known: iset<nat>)
    requires OnlyKnown(b, known)
    ensures OnlyKnown(AfterCommit(b, w), known)
  {
    var s := At(b, w);
    if s.Sending? && s.tried == |s.due| {
      forall i: nat | i < |b.rows|
        ensures WentOut(WrittenWave(b.rows, s)[i].status) ==> WentOut(b.rows[i].status) || i in s.accepted
      {
      }
      ReplacedKnown(b.sessions, w, if s.wave.SampleWave? then Finished else Concluding(s.wave.outcome), known);
    }
  }

  lemma SendKnown(b: Batch, w: nat, ok: bool, known: iset<nat>)
    requires OnlyKnown(b, known)
    ensures OnlyKnown(AfterSend(b, w, ok), known + iset i: nat | Accepts(b, Send(w, ok), i))
  {
    var s, more := At(b, w), known + iset i: nat | Accepts(b, Send(w, ok), i);
    assert SessionsKnown(b.sessions, more);
    if s.Sending? && s.tried < |s.due| && s.due[s.tried] < |b.attempts| {
      var i := s.due[s.tried];
      var next := s.(tried := s.tried + 1, accepted := if ok then s.accepted + {i} else s.accepted);
      assert ok ==> Accepts(b, Send(w, ok), i);
      ReplacedKnown(b.sessions, w, next, more);
    }
  }

  lemma LoadKnown(b: Batch, w: nat, known: iset<nat>)
    requires OnlyKnown(b, known)
    ensures OnlyKnown(AfterLoadWave(b, w), known)
  {
    var s := At(b, w);
    if s.Ready? || s.Judged? {
      ReplacedKnown(b.sessions, w, if s.Ready? && Wavefront(b, s).due == [] then Finished else Wavefront(b, s), known);
    }
  }

  lemma OtherKnown(b: Batch, e: Event, known: iset<nat>)
    requires OnlyKnown(b, known) && (e.Open? || e.LoadScores? || e.Judge? || e.Conclude? || e.CutOff?)
    ensures OnlyKnown(Step(b, e), known)
  {
  }

  lemma CallerKnown(b: Batch, e: Event, known: iset<nat>)
    requires OnlyKnown(b, known) && (e.Bounce? || e.Cancel?)
    ensures OnlyKnown(Step(b, e), known)
  {
  }

  lemma StepKnown(b: Batch, e: Event, known: iset<nat>)
    requires OnlyKnown(b, known)
    ensures OnlyKnown(Step(b, e), known + iset i: nat | Accepts(b, e, i))
  {
    match e
    case CommitScores(w, v) => CommitScoresKnown(b, w, v, known);
    case LoadWave(w) => LoadKnown(b, w, known);
    case Send(w, ok) => SendKnown(b, w, ok, known);
    case Commit(w) => CommitKnown(b, w, known);
    case Bounce(_, _) => CallerKnown(b, e, known);
    case Cancel => CallerKnown(b, e, known);
    case _ => OtherKnown(b, e, known);
  }

  ghost function KnownAfter(b: Batch, events: seq<Event>): iset<nat> {
    iset i: nat | AcceptedBefore(b, events, i)
  }

  lemma KnownGrows(b: Batch, events: seq<Event>, i: nat)
    requires events != []
    ensures var earlier := events[..|events| - 1];
            AcceptedBefore(b, earlier, i) || Accepts(Run(b, earlier), events[|events| - 1], i) ==>
              AcceptedBefore(b, events, i)
  {
    var earlier := events[..|events| - 1];
    assert forall k: nat | k < |earlier| :: earlier[..k] == events[..k];
    if k: nat :| k < |earlier| && Accepts(Run(b, earlier[..k]), earlier[k], i) {
      assert Accepts(Run(b, events[..k]), events[k], i);
    }
  }

  lemma OnlyKnownMore(b: Batch, known: iset<nat>, more: iset<nat>)
    requires OnlyKnown(b, known) && known <= more
    ensures OnlyKnown(b, more)
  {
  }

  /** A row says sent, settled or released only if a message to its recipient was accepted. */
  lemma {:induction false} StatusesTellSends(b: Batch, events: seq<Event>)
    requires Fresh(b)
    ensures OnlyKnown(Run(b, events), KnownAfter(b, events))
    decreases |events|
  {
    if events != [] {
      var earlier, e := events[..|events| - 1], events[|events| - 1];
      StatusesTellSends(b, earlier);
      var known := KnownAfter(b, earlier) + iset i: nat | Accepts(Run(b, earlier), e, i);
      StepKnown(Run(b, earlier), e, KnownAfter(b, earlier));
      forall i: nat | i in known
        ensures i in KnownAfter(b, events)
      {
        KnownGrows(b, events, i);
      }
      OnlyKnownMore(Run(b, events), known, KnownAfter(b, events));
    }
  }

  /** What a sending session leaves of each row when it commits. */
  lemma CommitTells(b: Batch, w: nat, i: nat)
    requires w < |b.sessions| && b.sessions[w].Sending? && b.sessions[w].tried == |b.sessions[w].due| && i < |b.rows|
    requires b.sessions[w].blocked !! set k <- b.sessions[w].due
    ensures var s, row, now := b.sessions[w], b.rows[i], AfterCommit(b, w).rows[i];
            && OnlyStatus(row, now)
            && (i in s.due && i in s.accepted ==> now.status == (if s.wave.SampleWave? then Sent else Released))
            && (i in s.due && i !in s.accepted ==> now.status == Skipped)
            && (i in s.blocked ==> now.status == Blocked)
            && (i !in s.due && i !in s.blocked ==> now == row)
  {
  }

  // ---------------------------------------------------------------- a bounce and later decisions

  /** A commit writes the status of a row that its session loaded while it was pending. */
  predicate Overwrites(b: Batch, e: Event, i: nat) {
    match e
    case Commit(w) => At(b, w).Sending? && At(b, w).tried == |At(b, w).due| &&
                      (i in At(b, w).due || i in At(b, w).blocked)
    case CommitScores(w, v) => At(b, w).Scoring? && |At(b, w).seen| == |b.rows| && i < |b.rows| &&
                               At(b, w).seen[i].status == Pending && Dead(v, At(b, w).seen[i].email)
    case _ => false
  }

  lemma ScoresOverwriteIff(stored: Recipient, seen: Recipient, v: Validation, sample: set<string>)
    requires stored.status == HardBounce
    ensures Written(stored, seen, AssignRow(ScoreRow(seen, v), sample)).status == HardBounce <==>
            !(seen.status == Pending && Dead(v, seen.email))
  {
  }

  lemma CommitScoresStays(b: Batch, w: nat, v: Validation, i: nat)
    requires i < |b.rows| && b.rows[i].status == HardBounce
    ensures |AfterCommitScores(b, w, v).rows| == |b.rows|
    ensures AfterCommitScores(b, w, v).rows[i].status == HardBounce <==> !Overwrites(b, CommitScores(w, v), i)
  {
    if At(b, w).Scoring? && |At(b, w).seen| == |b.rows| {
      var seen, sample := At(b, w).seen, SampleSet(At(b, w).seen, v, b.sampleSize);
      assert ScoreRows(seen, v, b.sampleSize)[i] == AssignRow(ScoreRow(seen[i], v), sample);
      ScoresOverwriteIff(b.rows[i], seen[i], v, sample);
    }
  }

  /** A recorded bounce stays until a session that had loaded the row as pending commits over it, and no longer. */
  lemma BounceStaysIff(b: Batch, e: Event, i: nat)
    requires i < |b.rows| && b.rows[i].status == HardBounce
    ensures |Step(b, e).rows| == |b.rows|
    ensures Step(b, e).rows[i].status == HardBounce <==> !Overwrites(b, e, i)
  {
    if e.CommitScores? {
      CommitScoresStays(b, e.w, e.validation, i);
    }
  }

  ghost predicate NeverOverwritten(b: Batch, events: seq<Event>, i: nat) {
    forall k: nat | k < |events| :: !Overwrites(Run(b, events[..k]), events[k], i)
  }

  lemma {:induction false} BounceStays(b: Batch, events: seq<Event>, i: nat)
    requires i < |b.rows| && b.rows[i].status == HardBounce && NeverOverwritten(b, events, i)
    ensures |Run(b, events).rows| == |b.rows| && Run(b, events).rows[i].status == HardBounce
    decreases |events|
  {
    if events != [] {
      var earlier := events[..|events| - 1];
      assert forall k: nat | k < |earlier| :: earlier[..k] == events[..k] && earlier[k] == events[k];
      BounceStays(b, earlier, i);
      BounceStaysIff(Run(b, earlier), events[|events| - 1], i);
    }
  }

  /** From the step on that records a hard bounce of a sampled recipient, unless a stale session commits over it, every
      verdict over the threshold selects only recipients that score strictly below the bounced one. */
  lemma BounceHoldsBack(b: Batch, first: seq<Event>, email: string, later: seq<Event>, i: nat, row: Recipient)
    requires Fresh(b) && i < |Run(b, first).rows|
    requires Run(b, first).rows[i].role == InSample && Run(b, first).rows[i].status == Sent
    requires SameAddress(Run(b, first).rows[i].email, email)
    requires NeverOverwritten(Run(b, first + [Bounce(email, HardBounce)]), later, i)
    ensures var now := Run(b, first + [Bounce(email, HardBounce)] + later);
            && |now.rows| == |b.rows| && i < |now.rows| && Bounced(now.rows[i]) && now.rows[i].score.Some?
            && (OverThreshold(now.rows, now.threshold) && Selected(row, VerdictOf(now.rows, now.threshold)) ==>
                  row.score.Some? ==> row.score.value < now.rows[i].score.value)
  {
    var before := Run(b, first);
    var settled := Run(b, first + [Bounce(email, HardBounce)]);
    var now := Run(b, first + [Bounce(email, HardBounce)] + later);
    RunOneMore(b, first, Bounce(email, HardBounce));
    BounceMeans(before.rows, email, HardBounce, i);
    RunOn(b, first + [Bounce(email, HardBounce)], later);
    BounceStays(settled, later, i);
    StaysSampled(b, first + [Bounce(email, HardBounce)], later, i);
    RunKeepsInvariant(b, first + [Bounce(email, HardBounce)] + later);
    if OverThreshold(now.rows, now.threshold) && Selected(row, VerdictOf(now.rows, now.threshold)) && row.score.Some? {
      DecisionSeparates(now.rows, now.threshold, row);
    }
  }

  lemma StaysSampled(b: Batch, first: seq<Event>, later: seq<Event>, i: nat)
    requires Fresh(b) && i < |Run(b, first).rows| && Run(b, first).rows[i].role == InSample
    ensures |Run(b, first + later).rows| == |b.rows| == |Run(b, first).rows|
    ensures Run(b, first + later).rows[i].role == InSample
  {
    NeverPendingAgain(b, first, later);
    RunKeepsInvariant(b, first);
    assert Later(Run(b, first).rows[i], Run(b, first + later).rows[i]);
  }
}
