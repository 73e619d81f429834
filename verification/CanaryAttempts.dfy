/** Exactly when a recipient is tried more than once: its attempts are the times it was loaded, and it is loaded again
    only while a session still holds it or after one that held it was cut off. */
module CanaryAttempts {
  import opened Wrappers
  import opened Sequences
  import opened Canary
  import opened CanarySessions
  import opened CanaryRuns

  // ---------------------------------------------------------------- events of one recipient

  /** The rows a session that is about to load would send to. */
  function LoadedBy(b: Batch, w: nat): seq<nat> {
    if At(b, w).Ready? || At(b, w).Judged? then Wavefront(b, At(b, w)).due else []
  }

  predicate Loads(b: Batch, e: Event, i: nat) {
    e.LoadWave? && i in LoadedBy(b, e.w)
  }

  /** A session that holds the recipient is cut off. */
  predicate LetsGo(b: Batch, e: Event, i: nat) {
    e.CutOff? && Holds(i)(At(b, e.w))
  }

  /** A session is cut off before it tried the recipient. */
  predicate Loses(b: Batch, e: Event, i: nat) {
    e.CutOff? && Owes(i)(At(b, e.w))
  }

  function LoadsOf(b: Batch, events: seq<Event>, i: nat): nat
    decreases |events|
  {
    if events == [] then 0
    else
      var earlier := events[..|events| - 1];
      LoadsOf(b, earlier, i) + One(Loads(Run(b, earlier), events[|events| - 1], i))
  }

  function LetGoOf(b: Batch, events: seq<Event>, i: nat): nat
    decreases |events|
  {
    if events == [] then 0
    else
      var earlier := events[..|events| - 1];
      LetGoOf(b, earlier, i) + One(LetsGo(Run(b, earlier), events[|events| - 1], i))
  }

  function LossesOf(b: Batch, events: seq<Event>, i: nat): nat
    decreases |events|
  {
    if events == [] then 0
    else
      var earlier := events[..|events| - 1];
      LossesOf(b, earlier, i) + One(Loses(Run(b, earlier), events[|events| - 1], i))
  }

  // ---------------------------------------------------------------- attempts made, owed and lost

  /** Attempts made or still owed for the recipient. */
  function Committed(b: Batch, i: nat): nat
    requires i < |b.attempts|
  {
    b.attempts[i] + Tally(b.sessions, Owes(i))
  }

  /** One step pays exactly for what it loads and what it loses. */
  ghost predicate Balanced(b: Batch, e: Event, i: nat)
    requires i < |b.attempts| && i < |Step(b, e).attempts|
  {
    Committed(Step(b, e), i) + One(Loses(b, e, i)) == Committed(b, i) + One(Loads(b, e, i))
  }

  lemma SameLength(b: Batch, e: Event)
    ensures |Step(b, e).attempts| == |b.attempts|
  {
  }

  /** A step of one session. */
  lemma OneSession(b: Batch, after: Batch, w: nat, s: Session, i: nat)
    requires i < |b.attempts| == |after.attempts| && w < |b.sessions| && after.sessions == b.sessions[w := s]
    ensures Committed(after, i) + b.attempts[i] + One(Owes(i)(b.sessions[w]))
         == Committed(b, i) + after.attempts[i] + One(Owes(i)(s))
    ensures Tally(after.sessions, Holds(i)) + One(Holds(i)(b.sessions[w]))
         == Tally(b.sessions, Holds(i)) + One(Holds(i)(s))
  {
    TallyUpdate(b.sessions, w, s, Owes(i));
    TallyUpdate(b.sessions, w, s, Holds(i));
  }

  lemma OpenBalanced(b: Batch, deciding: bool, i: nat)
    requires i < |b.attempts|
    ensures Balanced(b, Open(deciding), i)
    ensures Tally(AfterOpen(b, deciding).sessions, Holds(i)) == Tally(b.sessions, Holds(i))
  {
    var after, s := AfterOpen(b, deciding), if deciding then Deciding else Dispatching;
    if after != b {
      assert after == b.(sessions := b.sessions + [s]);
      TallyAppend(b.sessions, s, Owes(i));
      TallyAppend(b.sessions, s, Holds(i));
    }
  }

  lemma PassiveBalanced(b: Batch, e: Event, w: nat, i: nat)
    requires i < |b.attempts|
    requires e == LoadScores(w) || (e.CommitScores? && e.w == w) || e == Judge(w) || e == Conclude(w)
    ensures |Step(b, e).attempts| == |b.attempts| && Balanced(b, e, i)
    ensures Tally(Step(b, e).sessions, Holds(i)) == Tally(b.sessions, Holds(i))
  {
    var s := PassiveStep(b, e, w);
    if Step(b, e) != b {
      OneSession(b, Step(b, e), w, s, i);
    }
  }

  lemma LoadBalanced(b: Batch, w: nat, i: nat)
    requires i < |b.attempts|
    ensures Balanced(b, LoadWave(w), i)
    ensures Tally(AfterLoadWave(b, w).sessions, Holds(i))
         == Tally(b.sessions, Holds(i)) + One(Loads(b, LoadWave(w), i))
  {
    var s := At(b, w);
    if s.Ready? || s.Judged? {
      var wave := Wavefront(b, s);
      var next := if s.Ready? && wave.due == [] then Finished else wave;
      assert AfterLoadWave(b, w).sessions == b.sessions[w := next];
      assert wave.due[0..] == wave.due;
      OneSession(b, AfterLoadWave(b, w), w, next, i);
    }
  }

  lemma SendBalanced(b: Batch, w: nat, ok: bool, i: nat)
    requires Shape(b) && i < |b.attempts|
    ensures Balanced(b, Send(w, ok), i)
    ensures Tally(AfterSend(b, w, ok).sessions, Holds(i)) == Tally(b.sessions, Holds(i))
  {
    var s, after := At(b, w), AfterSend(b, w, ok);
    if s.Sending? && s.tried < |s.due| && s.due[s.tried] < |b.attempts| {
      assert Shaped(b.sessions[w], b.rows);
      var next := s.(tried := s.tried + 1, accepted := if ok then s.accepted + {s.due[s.tried]} else s.accepted);
      assert after.sessions == b.sessions[w := next];
      OwesOneLess(s, next, i);
      OneSession(b, after, w, next, i);
    }
  }

  lemma OwesOneLess(s: Session, next: Session, i: nat)
    requires s.Sending? && next.Sending? && NoDup(s.due) && s.tried < |s.due|
    requires next.due == s.due && next.tried == s.tried + 1
    ensures Holds(i)(next) == Holds(i)(s)
    ensures One(Owes(i)(s)) == One(Owes(i)(next)) + One(i == s.due[s.tried])
  {
    assert s.due[s.tried..] == [s.due[s.tried]] + s.due[s.tried + 1..];
  }

  lemma CommitBalanced(b: Batch, w: nat, i: nat)
    requires i < |b.attempts|
    ensures Balanced(b, Commit(w), i)
  {
    var s := At(b, w);
    if s.Sending? && s.tried == |s.due| {
      OneSession(b, AfterCommit(b, w), w, At(AfterCommit(b, w), w), i);
    }
  }

  lemma CutOffBalanced(b: Batch, w: nat, i: nat)
    requires i < |b.attempts|
    ensures Balanced(b, CutOff(w), i)
  {
    if w < |b.sessions| {
      OneSession(b, AfterCutOff(b, w), w, Finished, i);
    }
  }

  lemma StepBalanced(b: Batch, e: Event, i: nat)
    requires Shape(b) && i < |b.attempts|
    ensures |Step(b, e).attempts| == |b.attempts| && Balanced(b, e, i)
  {
    SameLength(b, e);
    match e
    case Open(deciding) => OpenBalanced(b, deciding, i);
    case LoadScores(w) => PassiveBalanced(b, e, w, i);
    case CommitScores(w, _) => PassiveBalanced(b, e, w, i);
    case Judge(w) => PassiveBalanced(b, e, w, i);
    case LoadWave(w) => LoadBalanced(b, w, i);
    case Send(w, ok) => SendBalanced(b, w, ok, i);
    case Commit(w) => CommitBalanced(b, w, i);
    case Conclude(w) => PassiveBalanced(b, e, w, i);
    case CutOff(w) => CutOffBalanced(b, w, i);
    case Bounce(_, _) =>
    case Cancel =>
  }

  /** Over any run, the attempts made, still owed and lost with a session that was cut off are the times the recipient
      was loaded. */
  lemma {:induction false} AttemptsAreLoads(b: Batch, events: seq<Event>, i: nat)
    requires Fresh(b) && i < |b.rows|
    ensures var now := Run(b, events);
            && |now.attempts| == |b.rows|
            && Committed(now, i) + LossesOf(b, events, i) == LoadsOf(b, events, i)
    decreases |events|
  {
    if events != [] {
      var earlier := events[..|events| - 1];
      AttemptsAreLoads(b, earlier, i);
      RunKeepsInvariant(b, earlier);
      StepBalanced(Run(b, earlier), events[|events| - 1], i);
    }
  }

  // ---------------------------------------------------------------- when a recipient is loaded again

  /** A step leaves a recipient that is taken care of so, unless it cuts off a session that holds it; and only loading
      it makes a session hold it. */
  ghost predicate Kept(b: Batch, e: Event, i: nat)
    requires i < |b.rows| && i < |Step(b, e).rows|
  {
    && (TakenCareOf(b, i) && !LetsGo(b, e, i) ==> TakenCareOf(Step(b, e), i))
    && (Loads(b, e, i) ==> Tally(Step(b, e).sessions, Holds(i)) > 0)
    && (Tally(Step(b, e).sessions, Holds(i)) > 0 ==> Tally(b.sessions, Holds(i)) > 0 || Loads(b, e, i))
  }

  lemma CommitKept(b: Batch, w: nat, i: nat)
    requires Shape(b) && i < |b.rows|
    ensures |AfterCommit(b, w).rows| == |b.rows| && Kept(b, Commit(w), i)
  {
    var s := At(b, w);
    if s.Sending? && s.tried == |s.due| {
      assert WrittenWave(b.rows, s)[i].status == Outcome(s, i, b.rows[i].status);
      OneSession(b, AfterCommit(b, w), w, At(AfterCommit(b, w), w), i);
    }
  }

  lemma CutOffKept(b: Batch, w: nat, i: nat)
    requires Shape(b) && i < |b.rows|
    ensures Kept(b, CutOff(w), i)
  {
    if w < |b.sessions| {
      OneSession(b, AfterCutOff(b, w), w, Finished, i);
    }
  }

  /** Steps after which the sessions hold what they held, but for what is loaded. */
  lemma OthersKept(b: Batch, e: Event, i: nat)
    requires RowsLater(b.rows, Step(b, e).rows) && i < |b.rows|
    requires Tally(Step(b, e).sessions, Holds(i)) == Tally(b.sessions, Holds(i)) + One(Loads(b, e, i))
    ensures Kept(b, e, i)
  {
    assert Later(b.rows[i], Step(b, e).rows[i]);
  }

  lemma StepKept(b: Batch, e: Event, i: nat)
    requires Shape(b) && i < |b.rows|
    ensures |Step(b, e).rows| == |b.rows| && Kept(b, e, i)
  {
    StepMovesOn(b, e);
    match e
    case Commit(w) => CommitKept(b, w, i);
    case CutOff(w) => CutOffKept(b, w, i);
    case Open(deciding) => OpenBalanced(b, deciding, i); OthersKept(b, e, i);
    case LoadScores(w) => PassiveBalanced(b, e, w, i); OthersKept(b, e, i);
    case CommitScores(w, _) => PassiveBalanced(b, e, w, i); OthersKept(b, e, i);
    case Judge(w) => PassiveBalanced(b, e, w, i); OthersKept(b, e, i);
    case LoadWave(w) => LoadBalanced(b, w, i); OthersKept(b, e, i);
    case Send(w, ok) => SendBalanced(b, w, ok, i); OthersKept(b, e, i);
    case Conclude(w) => PassiveBalanced(b, e, w, i); OthersKept(b, e, i);
    case Bounce(_, _) => OthersKept(b, e, i);
    case Cancel => OthersKept(b, e, i);
  }

  /** A recipient was loaded just when it is held or was let go, unless its row is settled. */
  lemma {:induction false} LoadedIff(b: Batch, events: seq<Event>, i: nat)
    requires Fresh(b) && i < |b.rows|
    ensures var now := Run(b, events);
            && |now.rows| == |b.rows|
            && (LoadsOf(b, events, i) > 0 ==> TakenCareOf(now, i) || LetGoOf(b, events, i) > 0)
            && (Tally(now.sessions, Holds(i)) > 0 || LetGoOf(b, events, i) > 0 ==> LoadsOf(b, events, i) > 0)
    decreases |events|
  {
    if events != [] {
      var earlier, e := events[..|events| - 1], events[|events| - 1];
      LoadedIff(b, earlier, i);
      RunKeepsInvariant(b, earlier);
      StepKept(Run(b, earlier), e, i);
      if LetsGo(Run(b, earlier), e, i) {
        TallyMember(Run(b, earlier).sessions, e.w, Holds(i));
      }
    }
  }

  /** At event `k` the recipient is loaded while another session holds it, or after one that held it was cut off. */
  predicate LoadsAgain(b: Batch, events: seq<Event>, k: nat, i: nat)
    requires k < |events|
  {
    var now := Run(b, events[..k]);
    Loads(now, events[k], i) && (Tally(now.sessions, Holds(i)) > 0 || LetGoOf(b, events[..k], i) > 0)
  }

  ghost predicate NeverLoadedAgain(b: Batch, events: seq<Event>, i: nat) {
    forall k: nat | k < |events| :: !LoadsAgain(b, events, k, i)
  }

  lemma LoadedPending(b: Batch, e: Event, i: nat)
    requires Loads(b, e, i)
    ensures i < |b.rows| && b.rows[i].status == Pending
  {
    WaveMembers(b, At(b, e.w));
  }

  lemma AgainEarlier(b: Batch, events: seq<Event>, i: nat)
    requires events != []
    ensures NeverLoadedAgain(b, events, i) <==>
            NeverLoadedAgain(b, events[..|events| - 1], i) && !LoadsAgain(b, events, |events| - 1, i)
  {
    var earlier := events[..|events| - 1];
    forall k: nat | k < |earlier|
      ensures LoadsAgain(b, earlier, k, i) <==> LoadsAgain(b, events, k, i)
    {
      assert earlier[..k] == events[..k];
    }
  }

  lemma {:induction false} LoadedOnceIff(b: Batch, events: seq<Event>, i: nat)
    requires Fresh(b) && i < |b.rows|
    ensures LoadsOf(b, events, i) <= 1 <==> NeverLoadedAgain(b, events, i)
    decreases |events|
  {
    if events != [] {
      var earlier, e := events[..|events| - 1], events[|events| - 1];
      LoadedOnceIff(b, earlier, i);
      LoadedIff(b, earlier, i);
      AgainEarlier(b, events, i);
      if Loads(Run(b, earlier), e, i) {
        LoadedPending(Run(b, earlier), e, i);
      }
    }
  }

  /** A recipient that is never loaded while another session holds it, nor after one that held it was cut off, is tried
      at most once; any other is tried again, once nobody owes it an attempt and no attempt at it was lost. */
  lemma TriedOnceIff(b: Batch, events: seq<Event>, i: nat)
    requires Fresh(b) && i < |b.rows|
    ensures var now := Run(b, events);
            && |now.attempts| == |b.rows|
            && (NeverLoadedAgain(b, events, i) ==> now.attempts[i] <= 1)
            && (Tally(now.sessions, Owes(i)) == 0 && LossesOf(b, events, i) == 0 ==>
                  (now.attempts[i] <= 1 <==> NeverLoadedAgain(b, events, i)))
  {
    AttemptsAreLoads(b, events, i);
    LoadedOnceIff(b, events, i);
  }
}
