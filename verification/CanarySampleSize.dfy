/** How large the sample gets. Scores are written before the sample is sent to, so a batch may be scored again, and
    a new score may bring new recipients in; nobody leaves. */
module CanarySampleSize {
  import opened Wrappers
  import opened Arithmetic
  import opened Text
  import opened Sampling
  import opened Canary
  import opened CanarySessions
  import opened CanaryRuns
  import opened CanaryCreation

  predicate Sampled(row: Recipient) {
    row.role == InSample
  }

  /** The row survives validation. */
  predicate Survives(row: Recipient, v: Validation) {
    row.status == Pending && Lower(row.email) !in v.dead
  }

  /** The row survives validation and its address is among the sampled ones. */
  function Marks(v: Validation, sample: set<string>): Recipient -> bool {
    (row: Recipient) => Survives(row, v) && Lower(row.email) in sample
  }

  function SurvivorKeys(rows: seq<Recipient>, v: Validation): set<string> {
    set i: nat | i < |rows| && Survives(rows[i], v) :: Lower(rows[i].email)
  }

  // ---------------------------------------------------------------- one scoring

  lemma {:induction false} NoMarks(rows: seq<Recipient>, v: Validation, keys: set<string>)
    requires forall i | 0 <= i < |rows| :: Lower(rows[i].email) !in keys
    ensures Count(rows, Marks(v, keys)) == 0
  {
    if rows != [] {
      NoMarks(rows[..|rows| - 1], v, keys);
    }
  }

  lemma {:induction false} MarksWithout(rows: seq<Recipient>, v: Validation, keys: set<string>, key: string)
    requires forall i | 0 <= i < |rows| :: Lower(rows[i].email) != key
    ensures Count(rows, Marks(v, keys)) == Count(rows, Marks(v, keys - {key}))
  {
    if rows != [] {
      MarksWithout(rows[..|rows| - 1], v, keys, key);
    }
  }

  /** Each sampled address marks one row. */
  lemma {:induction false} MarkedCount(rows: seq<Recipient>, v: Validation, keys: set<string>)
    requires RowsDistinct(rows) && keys <= SurvivorKeys(rows, v)
    ensures Count(rows, Marks(v, keys)) == |keys|
  {
    if rows == [] {
      assert keys == {};
    } else {
      var n := |rows| - 1;
      var key := Lower(rows[n].email);
      assert forall i | 0 <= i < n :: Lower(rows[..n][i].email) != key;
      MarksWithout(rows[..n], v, keys, key);
      forall k <- keys - {key}
        ensures k in SurvivorKeys(rows[..n], v)
      {
        var i: nat :| i < |rows| && Survives(rows[i], v) && Lower(rows[i].email) == k;
        assert rows[..n][i] == rows[i];
      }
      MarkedCount(rows[..n], v, keys - {key});
      if key in keys {
        var i: nat :| i < |rows| && Survives(rows[i], v) && Lower(rows[i].email) == key;
        assert i == n;
      }
    }
  }

  predicate KeysUnique(emails: seq<string>) {
    forall i, j | 0 <= i < j < |emails| :: Lower(emails[i]) != Lower(emails[j])
  }

  lemma {:induction false} KeysCounted(emails: seq<string>)
    requires KeysUnique(emails)
    ensures |LowerSet(emails)| == |emails|
  {
    if emails != [] {
      var n := |emails| - 1;
      KeysCounted(emails[..n]);
      assert emails == emails[..n] + [emails[n]];
      LowerSetAppend(emails[..n], emails[n]);
    }
  }

  lemma KeysUniqueAppend(emails: seq<string>, email: string)
    requires KeysUnique(emails) && Lower(email) !in LowerSet(emails)
    ensures KeysUnique(emails + [email])
  {
    assert forall i | 0 <= i < |emails| :: Lower(emails[i]) in LowerSet(emails);
  }

  lemma {:induction false} SurvivorEmails(rows: seq<Recipient>, v: Validation)
    requires RowsDistinct(rows)
    ensures KeysUnique(Emails(Survivors(rows, v)))
    ensures LowerSet(Emails(Survivors(rows, v))) == SurvivorKeys(rows, v)
  {
    if rows != [] {
      var n := |rows| - 1;
      SurvivorEmails(rows[..n], v);
      LastSurvivor(rows, v);
      LastKeyNew(rows, v);
      LastEmail(rows, v);
      LowerSetAppend(Emails(Survivors(rows[..n], v)), rows[n].email);
      KeysUniqueAppend(Emails(Survivors(rows[..n], v)), rows[n].email);
    }
  }

  lemma LastKeyNew(rows: seq<Recipient>, v: Validation)
    requires rows != [] && RowsDistinct(rows)
    ensures Lower(rows[|rows| - 1].email) !in SurvivorKeys(rows[..|rows| - 1], v)
  {
  }

  lemma LastEmail(rows: seq<Recipient>, v: Validation)
    requires rows != []
    ensures var n := |rows| - 1;
            Emails(Survivors(rows, v)) ==
              Emails(Survivors(rows[..n], v)) + (if Survives(rows[n], v) then [rows[n].email] else [])
  {
  }

  lemma LastSurvivor(rows: seq<Recipient>, v: Validation)
    requires rows != []
    ensures var n := |rows| - 1;
            SurvivorKeys(rows, v) ==
              SurvivorKeys(rows[..n], v) + (if Survives(rows[n], v) then {Lower(rows[n].email)} else {})
  {
    var n := |rows| - 1;
    forall key <- SurvivorKeys(rows[..n], v)
      ensures key in SurvivorKeys(rows, v)
    {
      var i: nat :| i < n && Survives(rows[..n][i], v) && Lower(rows[..n][i].email) == key;
      assert rows[i] == rows[..n][i];
    }
    forall key <- SurvivorKeys(rows, v)
      ensures key in SurvivorKeys(rows[..n], v) || (Survives(rows[n], v) && key == Lower(rows[n].email))
    {
      var i: nat :| i < |rows| && Survives(rows[i], v) && Lower(rows[i].email) == key;
      assert i < n ==> rows[..n][i] == rows[i];
    }
  }

  /** A part of a list of distinct addresses has distinct addresses. */
  lemma PartUnique(part: seq<string>, others: seq<string>, all: seq<string>)
    requires KeysUnique(all) && multiset(part) + multiset(others) == multiset(all)
    ensures KeysUnique(part) && LowerSet(part) <= LowerSet(all)
  {
    forall e <- part
      ensures e in all && multiset(part)[e] <= 1
    {
      assert e in multiset(part) + multiset(others);
      var p :| 0 <= p < |all| && all[p] == e;
      OnceOnly(all, p);
      assert multiset(part)[e] <= multiset(all)[e];
    }
    forall i, j | 0 <= i < j < |part|
      ensures Lower(part[i]) != Lower(part[j])
    {
      assert part[i] in all && part[j] in all;
      if part[i] == part[j] {
        Twice(part, i, j);
      }
    }
  }

  lemma Twice(s: seq<string>, i: nat, j: nat)
    requires i < j < |s| && s[i] == s[j]
    ensures multiset(s)[s[i]] >= 2
  {
    assert s == s[..j] + [s[j]] + s[j + 1..];
    assert s[i] in s[..j];
  }

  lemma OnceOnly(s: seq<string>, p: nat)
    requires KeysUnique(s) && p < |s|
    ensures multiset(s)[s[p]] == 1
  {
    assert s == s[..p] + [s[p]] + s[p + 1..];
    assert s[p] !in s[..p] && s[p] !in s[p + 1..];
  }

  /** The sample has exactly the clamped number of distinct addresses, all of surviving rows. */
  lemma SampleKeys(rows: seq<Recipient>, v: Validation, sampleSize: int)
    requires RowsDistinct(rows)
    ensures SampleSet(rows, v, sampleSize) <= SurvivorKeys(rows, v)
    ensures |SampleSet(rows, v, sampleSize)| == Clamp(sampleSize, |Survivors(rows, v)|)
  {
    var scored := Survivors(rows, v);
    var (sample, held) := Sample(scored, sampleSize);
    SurvivorEmails(rows, v);
    SamplePartitions(scored, sampleSize);
    PartUnique(sample, held, Emails(scored));
    KeysCounted(sample);
  }

  lemma RoleWritten(stored: Recipient, seen: Recipient, v: Validation, sample: set<string>)
    requires Later(seen, stored)
    ensures Written(stored, seen, AssignRow(ScoreRow(seen, v), sample)).role == InSample <==>
              stored.role == InSample || Marks(v, sample)(seen)
  {
  }

  /** Writing scores that were computed on `seen` brings in just the marked rows. */
  lemma WrittenRoles(rows: seq<Recipient>, seen: seq<Recipient>, v: Validation, sampleSize: int)
    requires RowsLater(seen, rows)
    ensures forall i | 0 <= i < |rows| ::
              WrittenScores(rows, seen, v, sampleSize)[i].role == InSample <==>
                rows[i].role == InSample || Marks(v, SampleSet(seen, v, sampleSize))(seen[i])
  {
    var now, sample := WrittenScores(rows, seen, v, sampleSize), SampleSet(seen, v, sampleSize);
    forall i | 0 <= i < |rows|
      ensures now[i].role == InSample <==> rows[i].role == InSample || Marks(v, sample)(seen[i])
    {
      assert Later(seen[i], rows[i]);
      assert now[i] == Written(rows[i], seen[i], AssignRow(ScoreRow(seen[i], v), sample));
      RoleWritten(rows[i], seen[i], v, sample);
    }
  }

  lemma {:induction false} CountJoined(rows: seq<Recipient>, seen: seq<Recipient>, now: seq<Recipient>,
                                       p: Recipient -> bool)
    requires |rows| == |seen| == |now|
    requires forall i | 0 <= i < |rows| :: now[i].role == InSample <==> rows[i].role == InSample || p(seen[i])
    ensures Count(now, Sampled) <= Count(rows, Sampled) + Count(seen, p)
    ensures (forall i | 0 <= i < |rows| :: rows[i].role != InSample) ==> Count(now, Sampled) == Count(seen, p)
  {
    if rows != [] {
      var n := |rows| - 1;
      CountJoined(rows[..n], seen[..n], now[..n], p);
    }
  }

  /** Bringing in the marked rows adds at most as many as there are keys, and exactly that many to an empty sample. */
  lemma JoinedAtMost(rows: seq<Recipient>, seen: seq<Recipient>, now: seq<Recipient>, v: Validation, keys: set<string>)
    requires |rows| == |seen| == |now| && RowsDistinct(seen) && keys <= SurvivorKeys(seen, v)
    requires forall i | 0 <= i < |rows| ::
               now[i].role == InSample <==> rows[i].role == InSample || Marks(v, keys)(seen[i])
    ensures Count(now, Sampled) <= Count(rows, Sampled) + |keys|
    ensures (forall i | 0 <= i < |rows| :: rows[i].role != InSample) ==> Count(now, Sampled) == |keys|
  {
    MarkedCount(seen, v, keys);
    CountJoined(rows, seen, now, Marks(v, keys));
  }

  lemma SeenDistinct(rows: seq<Recipient>, seen: seq<Recipient>)
    requires RowsLater(seen, rows) && RowsDistinct(rows)
    ensures RowsDistinct(seen)
  {
    assert forall i | 0 <= i < |rows| :: Later(seen[i], rows[i]);
  }

  /** One scoring brings in at most the clamped sample size, and exactly that many if nobody was in the sample. */
  lemma ScoringAdds(rows: seq<Recipient>, seen: seq<Recipient>, v: Validation, sampleSize: int)
    requires RowsLater(seen, rows) && RowsDistinct(rows)
    ensures var now, size := WrittenScores(rows, seen, v, sampleSize), Clamp(sampleSize, |Survivors(seen, v)|);
            && Count(now, Sampled) <= Count(rows, Sampled) + size
            && ((forall i | 0 <= i < |rows| :: rows[i].role != InSample) ==> Count(now, Sampled) == size)
  {
    SeenDistinct(rows, seen);
    SampleKeys(seen, v, sampleSize);
    WrittenRoles(rows, seen, v, sampleSize);
    JoinedAtMost(rows, seen, WrittenScores(rows, seen, v, sampleSize), v, SampleSet(seen, v, sampleSize));
  }

  // ---------------------------------------------------------------- whole runs

  lemma {:induction false} SurvivorsFewer(rows: seq<Recipient>, v: Validation)
    ensures |Survivors(rows, v)| <= |rows|
  {
    if rows != [] {
      SurvivorsFewer(rows[..|rows| - 1], v);
    }
  }

  /** The sample is no larger than what the scorings may bring in. */
  ghost predicate SampleBounded(rows: seq<Recipient>, scorings: nat, sampleSize: int) {
    Count(rows, Sampled) as real <= Times(scorings, Clamp(sampleSize, |rows|) as real)
  }

  lemma KeysAtMost(seen: seq<Recipient>, v: Validation, sampleSize: int)
    requires RowsDistinct(seen)
    ensures SampleSet(seen, v, sampleSize) <= SurvivorKeys(seen, v)
    ensures |SampleSet(seen, v, sampleSize)| <= Clamp(sampleSize, |seen|)
  {
    SampleKeys(seen, v, sampleSize);
    SurvivorsFewer(seen, v);
  }

  lemma BoundKept(before: nat, after: nat, scorings: nat, size: nat)
    requires before as real <= Times(scorings, size as real) && after <= before + size
    ensures after as real <= Times(scorings + 1, size as real)
  {
  }

  lemma JoinedKeepsBound(rows: seq<Recipient>, seen: seq<Recipient>, now: seq<Recipient>, v: Validation,
                         keys: set<string>, scorings: nat, sampleSize: int)
    requires |rows| == |seen| == |now| && RowsDistinct(seen) && keys <= SurvivorKeys(seen, v)
    requires |keys| <= Clamp(sampleSize, |seen|)
    requires forall i | 0 <= i < |rows| ::
               now[i].role == InSample <==> rows[i].role == InSample || Marks(v, keys)(seen[i])
    requires SampleBounded(rows, scorings, sampleSize)
    ensures SampleBounded(now, scorings + 1, sampleSize)
  {
    JoinedAtMost(rows, seen, now, v, keys);
    BoundKept(Count(rows, Sampled), Count(now, Sampled), scorings, Clamp(sampleSize, |rows|));
  }

  lemma CommitScoresKeepsSize(b: Batch, w: nat, v: Validation)
    requires Shape(b) && SampleBounded(b.rows, b.scorings, b.sampleSize) && RowsDistinct(b.rows)
    ensures var after := AfterCommitScores(b, w, v); SampleBounded(after.rows, after.scorings, after.sampleSize)
  {
    if At(b, w).Scoring? {
      var seen := At(b, w).seen;
      assert Shaped(b.sessions[w], b.rows);
      SeenDistinct(b.rows, seen);
      KeysAtMost(seen, v, b.sampleSize);
      WrittenRoles(b.rows, seen, v, b.sampleSize);
      JoinedKeepsBound(b.rows, seen, WrittenScores(b.rows, seen, v, b.sampleSize), v,
                       SampleSet(seen, v, b.sampleSize), b.scorings, b.sampleSize);
    }
  }

  lemma {:induction false} SameSampled(rows: seq<Recipient>, now: seq<Recipient>)
    requires |rows| == |now| && forall i | 0 <= i < |rows| :: now[i].role == rows[i].role
    ensures Count(now, Sampled) == Count(rows, Sampled)
  {
    if rows != [] {
      SameSampled(rows[..|rows| - 1], now[..|rows| - 1]);
    }
  }

  lemma OtherRoles(b: Batch, e: Event)
    requires !e.CommitScores?
    ensures |Step(b, e).rows| == |b.rows| && forall i | 0 <= i < |b.rows| :: Step(b, e).rows[i].role == b.rows[i].role
    ensures Step(b, e).scorings == b.scorings && Step(b, e).sampleSize == b.sampleSize
  {
  }

  lemma StepKeepsSize(b: Batch, e: Event)
    requires Shape(b) && SampleBounded(b.rows, b.scorings, b.sampleSize) && RowsDistinct(b.rows)
    ensures SampleBounded(Step(b, e).rows, Step(b, e).scorings, Step(b, e).sampleSize)
  {
    if e.CommitScores? {
      CommitScoresKeepsSize(b, e.w, e.validation);
    } else {
      OtherRoles(b, e);
      SameSampled(b.rows, Step(b, e).rows);
    }
  }

  lemma {:induction false} RunKeepsSize(b: Batch, events: seq<Event>)
    requires Fresh(b) && RowsDistinct(b.rows)
    ensures var now := Run(b, events); SampleBounded(now.rows, now.scorings, now.sampleSize)
    decreases |events|
  {
    if events == [] {
      NobodySampled(b.rows);
    } else {
      var n := |events| - 1;
      RunKeepsSize(b, events[..n]);
      RunKeepsInvariant(b, events[..n]);
      SameAddresses(b, events[..n]);
      StepKeepsSize(Run(b, events[..n]), events[n]);
    }
  }

  /** Over any run the sample holds at most the clamped sample size for each time scores were written. */
  lemma SampleGrowth(b: Batch, events: seq<Event>)
    requires Fresh(b) && RowsDistinct(b.rows)
    ensures Count(Run(b, events).rows, Sampled) <= Run(b, events).scorings * Clamp(b.sampleSize, |b.rows|)
  {
    RunKeepsSize(b, events);
    SameAddresses(b, events);
    RunKeepsThreshold(b, events);
    WholeBound(Count(Run(b, events).rows, Sampled), Run(b, events).scorings, Clamp(b.sampleSize, |b.rows|));
  }

  lemma WholeBound(count: nat, scorings: nat, size: nat)
    requires count as real <= Times(scorings, size as real)
    ensures count <= scorings * size
  {
    TimesIsProduct(scorings, size as real);
    assert (scorings * size) as real == scorings as real * size as real;
  }

  lemma {:induction false} NobodySampled(rows: seq<Recipient>)
    requires forall i | 0 <= i < |rows| :: rows[i].role != InSample
    ensures Count(rows, Sampled) == 0
  {
    if rows != [] {
      NobodySampled(rows[..|rows| - 1]);
    }
  }

  // ---------------------------------------------------------------- scoring twice

  /** One session scores a pending batch and goes no further. */
  function Rescored(b: Batch, v: Validation): Batch {
    AfterCommitScores(AfterLoadScores(AfterOpen(b, false), |b.sessions|), |b.sessions|, v)
  }

  lemma {:induction false} TwoSurvivors(x: Recipient, y: Recipient, v: Validation)
    requires x.status == Pending && y.status == Pending && v.dead == {}
    ensures Survivors([x, y], v) == [Scored(x.email, ScoreFor(v, x.email)), Scored(y.email, ScoreFor(v, y.email))]
  {
    assert [x, y][..1] == [x] && [x][..0] == [];
    assert Survivors([x], v) == [Scored(x.email, ScoreFor(v, x.email))];
  }

  /** The riskier of two recipients is the sample of one. */
  lemma RiskierSampled(x: Recipient, y: Recipient, v: Validation, top: Recipient)
    requires x.status == Pending && y.status == Pending && v.dead == {} && top in [x, y]
    requires forall other <- [x, y] :: other.email != top.email ==> ScoreFor(v, other.email) < ScoreFor(v, top.email)
    ensures Lower(top.email) in SampleSet([x, y], v, 1)
  {
    var scored := Survivors([x, y], v);
    TwoSurvivors(x, y, v);
    ExtremesSampled(scored, 1);
    var a :| a in scored && a.email in Sample(scored, 1).0 && forall b <- scored :: b.score <= a.score;
    assert scored[0] in scored && scored[1] in scored;
    assert x in [x, y] && y in [x, y];
    assert a.email == top.email;
  }

  function Favouring(email: string): Validation {
    Validation(map[Lower(email) := 0.9], {})
  }

  /** In a batch of two with a sample of one, a second scoring that finds the other recipient riskier brings both into
      the sample. */
  lemma RescoringGrowsSample(b: Batch, x: string, y: string)
    requires TwoPending(b) && b.rows[0].email == x && b.rows[1].email == y
    ensures Count(Rescored(Rescored(b, Favouring(x)), Favouring(y)).rows, Sampled) == 2
  {
    RescoredJoins(b, 0);
    SecondJoins(Rescored(b, Favouring(x)), y);
  }

  lemma SecondJoins(once: Batch, y: string)
    requires TwoPending(once) && Sampled(once.rows[0]) && once.rows[1].email == y
    ensures Count(Rescored(once, Favouring(y)).rows, Sampled) == 2
  {
    RescoredJoins(once, 1);
    BothSampled(Rescored(once, Favouring(y)).rows);
  }

  lemma BothSampled(rows: seq<Recipient>)
    requires |rows| == 2 && Sampled(rows[0]) && Sampled(rows[1])
    ensures Count(rows, Sampled) == 2
  {
    assert Count(rows[..1], Sampled) == 1 by {
      assert rows[..1][..0] == [];
    }
  }

  predicate TwoPending(b: Batch) {
    && |b.rows| == 2 && b.status == BatchPending && b.sampleSize == 1
    && b.rows[0].status == b.rows[1].status == Pending && Lower(b.rows[0].email) != Lower(b.rows[1].email)
  }

  /** Scoring a pending batch of two: the favoured one joins the sample, and both stay pending. */
  lemma RescoredJoins(b: Batch, top: nat)
    requires TwoPending(b) && top < 2
    ensures var after := Rescored(b, Favouring(b.rows[top].email));
            && TwoPending(after) && after.rows[0].email == b.rows[0].email && after.rows[1].email == b.rows[1].email
            && Sampled(after.rows[top]) && forall i | 0 <= i < 2 && Sampled(b.rows[i]) :: Sampled(after.rows[i])
  {
    var v := Favouring(b.rows[top].email);
    TwoSurvivors(b.rows[0], b.rows[1], v);
    assert b.rows == [b.rows[0], b.rows[1]];
    RescoredState(b, v);
    FavouredJoins(b.rows, top);
  }

  lemma RescoredState(b: Batch, v: Validation)
    requires b.status == BatchPending && b.rows != [] && b.rows[|b.rows| - 1].status == Pending
    requires Survivors(b.rows, v) != []
    ensures var after := Rescored(b, v);
            after == b.(rows := WrittenScores(b.rows, b.rows, v, b.sampleSize), sessions := b.sessions + [Ready],
                        scorings := b.scorings + 1)
  {
    SomePending(b.rows);
    var n := |b.sessions|;
    var ready := b.(sessions := b.sessions + [Dispatching]);
    assert AfterOpen(b, false) == ready;
    var scoring := ready.(sessions := ready.sessions[n := Scoring(b.rows)]);
    assert AfterLoadScores(ready, n) == scoring;
    assert scoring.sessions[n := Ready] == b.sessions + [Ready];
  }

  lemma FavouredJoins(rows: seq<Recipient>, top: nat)
    requires |rows| == 2 && top < 2 && Lower(rows[0].email) != Lower(rows[1].email)
    requires rows[0].status == rows[1].status == Pending
    ensures var now := WrittenScores(rows, rows, Favouring(rows[top].email), 1);
            && (forall i | 0 <= i < 2 :: now[i].email == rows[i].email && now[i].status == Pending)
            && Sampled(now[top]) && forall i | 0 <= i < 2 && Sampled(rows[i]) :: Sampled(now[i])
  {
    var v := Favouring(rows[top].email);
    assert rows == [rows[0], rows[1]];
    RiskierSampled(rows[0], rows[1], v, rows[top]);
    Unmoved(rows);
    WrittenRoles(rows, rows, v, 1);
    StillPending(rows, v);
  }

  lemma SomePending(rows: seq<Recipient>)
    requires rows != [] && rows[|rows| - 1].status == Pending
    ensures Count(rows, IsPending) > 0
  {
  }

  lemma StillPending(rows: seq<Recipient>, v: Validation)
    requires v.dead == {}
    ensures forall i | 0 <= i < |rows| ::
              && WrittenScores(rows, rows, v, 1)[i].email == rows[i].email
              && WrittenScores(rows, rows, v, 1)[i].status == rows[i].status
  {
    forall i | 0 <= i < |rows|
      ensures ScoreRows(rows, v, 1)[i].status == rows[i].status
    {
      assert ScoreRows(rows, v, 1)[i] == AssignRow(ScoreRow(rows[i], v), SampleSet(rows, v, 1));
    }
  }

  /** A scoring that nothing interrupts writes what the batch object's method does. */
  lemma ScoringUninterrupted(rows: seq<Recipient>, v: Validation, sampleSize: int)
    ensures WrittenScores(rows, rows, v, sampleSize) == ScoreRows(rows, v, sampleSize)
  {
    forall i | 0 <= i < |rows|
      ensures ScoreRows(rows, v, sampleSize)[i].email == rows[i].email
    {
      assert ScoreRows(rows, v, sampleSize)[i] == AssignRow(ScoreRow(rows[i], v), SampleSet(rows, v, sampleSize));
    }
  }
}
