/** Claiming a due schedule: any number of workers race over one row by selecting it and then updating it only if
    nobody has moved its next run, while users edit it. */
module ScheduleClaims {
  import opened Wrappers

  /** Times are in microseconds. */
  const MINUTE: int := 60_000_000

  /** The shortest interval a schedule may be saved with, in minutes. */
  const MIN_INTERVAL: nat := 5

  type Interval = i: nat | MIN_INTERVAL <= i witness MIN_INTERVAL

  function After(time: int, interval: Interval): int {
    time + interval * MINUTE
  }

  datatype Row = Row(enabled: bool, nextRun: Option<int>, lastRun: Option<int>, interval: Interval)

  predicate Due(row: Row, now: int) {
    row.enabled && row.nextRun.Some? && row.nextRun.value <= now
  }

  /** The conditional update that claims the run expected at `expected`, with the interval that was selected. */
  function ClaimRow(row: Row, expected: int, now: int, interval: Interval): Row {
    if row.enabled && row.nextRun == Some(expected) then
      row.(lastRun := Some(now), nextRun := Some(After(now, interval)))
    else row
  }

  predicate SetsNextRun(loaded: Row, enabled: bool) {
    enabled && (!loaded.enabled || loaded.nextRun.None?)
  }

  /** A user's edit, made at `at` on what it loaded of the row. Only what differs from what was loaded is written. */
  function EditRow(row: Row, loaded: Row, at: int, enabled: bool, interval: Interval): Row {
    var row := if enabled != loaded.enabled then row.(enabled := enabled) else row;
    var row := if interval != loaded.interval then row.(interval := interval) else row;
    if SetsNextRun(loaded, enabled) then row.(nextRun := Some(After(at, interval)))
    else if !enabled && loaded.nextRun.Some? then row.(nextRun := None)
    else row
  }

  function DisableRow(row: Row): Row {
    row.(enabled := false, nextRun := None)
  }

  /** The row as the code updates it, field by field. */
  class Schedule {
    var enabled: bool
    var nextRun: Option<int>
    var lastRun: Option<int>
    var interval: Interval

    function State(): Row
      reads this
    {
      Row(enabled, nextRun, lastRun, interval)
    }

    constructor (row: Row)
      ensures State() == row
    {
      enabled, nextRun, lastRun, interval := row.enabled, row.nextRun, row.lastRun, row.interval;
    }

    /** The number of rows updated. */
    method UpdateIfExpected(expected: int, claimedAt: int, selected: Interval) returns (updated: nat)
      modifies this
      ensures State() == ClaimRow(old(State()), expected, claimedAt, selected)
      ensures updated == if old(enabled) && old(nextRun) == Some(expected) then 1 else 0
    {
      updated := 0;
      if enabled && nextRun == Some(expected) {
        lastRun := Some(claimedAt);
        nextRun := Some(After(claimedAt, selected));
        updated := 1;
      }
    }

    /** An edit that nothing interrupts. */
    method Save(now: int, newEnabled: bool, newInterval: Interval)
      modifies this
      ensures State() == EditRow(old(State()), old(State()), now, newEnabled, newInterval)
    {
      var wasEnabled := enabled;
      enabled := newEnabled;
      interval := newInterval;
      if newEnabled && (!wasEnabled || nextRun == None) {
        nextRun := Some(After(now, newInterval));
      } else if !newEnabled {
        nextRun := None;
      }
    }

    method DisableAfterClaim()
      modifies this
      ensures State() == DisableRow(old(State()))
    {
      enabled := false;
      nextRun := None;
    }
  }

  // ---------------------------------------------------------------- what happens to the row

  /** A claim of the run that is still due moves it on by the interval in minutes and notes the time; nothing else
      changes, and any other claim changes nothing. */
  lemma ClaimMeans(row: Row, expected: int, now: int, interval: Interval)
    ensures var after := ClaimRow(row, expected, now, interval);
            && after.enabled == row.enabled && after.interval == row.interval
            && (row.enabled && row.nextRun == Some(expected) ==>
                  after.nextRun == Some(now + interval * 60_000_000) && after.lastRun == Some(now))
            && (!row.enabled || row.nextRun != Some(expected) ==> after == row)
  {
  }

  /** An edit that nothing interrupts stores what it was asked to. Switched off, the schedule has no next run; switched
      on, or without one, it runs an interval from now; otherwise the next run stays. */
  lemma EditMeans(row: Row, now: int, enabled: bool, interval: Interval)
    ensures var after := EditRow(row, row, now, enabled, interval);
            && after.enabled == enabled && after.interval == interval && after.lastRun == row.lastRun
            && (!enabled ==> after.nextRun == None)
            && (enabled && (!row.enabled || row.nextRun == None) ==>
                  after.nextRun == Some(now + interval * 60_000_000))
            && (enabled && row.enabled && row.nextRun.Some? ==> after.nextRun == row.nextRun)
  {
  }

  /** A stale edit leaves every field that it was not asked to change from what it loaded, and writes the others. */
  lemma StaleEditMeans(row: Row, loaded: Row, at: int, enabled: bool, interval: Interval)
    ensures var after := EditRow(row, loaded, at, enabled, interval);
            var alone := EditRow(loaded, loaded, at, enabled, interval);
            && after.enabled == (if alone.enabled != loaded.enabled then alone.enabled else row.enabled)
            && after.interval == (if alone.interval != loaded.interval then alone.interval else row.interval)
            && after.lastRun == row.lastRun
            && (alone.nextRun == loaded.nextRun ==> after.nextRun == row.nextRun || SetsNextRun(loaded, enabled))
            && (alone.nextRun != loaded.nextRun ==> after.nextRun == alone.nextRun)
  {
  }

  lemma DisableMeans(row: Row)
    ensures var after := DisableRow(row);
            !after.enabled && after.nextRun == None && after.lastRun == row.lastRun && after.interval == row.interval
  {
  }

  // ---------------------------------------------------------------- the protocol

  /** A worker reads the clock, then selects the row if it is due, then tries to claim it. */
  datatype Worker = Began(now: int) | Selected(now: int, expected: int, interval: Interval)

  /** An edit in progress: what it loaded and when. */
  datatype Editor = Editor(at: int, loaded: Row)

  datatype Claim = Claim(slot: int, time: int)

  datatype System = System(clock: int, row: Row, workers: map<nat, Worker>, editors: map<nat, Editor>, log: seq<Claim>)

  datatype Event =
    | Tick(elapsed: nat)
    | Begin(worker: nat)
    | Select(worker: nat)
    | Swap(worker: nat)
    | Disable
    | Open(editor: nat)
    | Save(editor: nat, enabled: bool, interval: Interval)

  function Step(s: System, e: Event): System {
    match e
    case Tick(elapsed) => s.(clock := s.clock + elapsed)
    case Begin(w) => s.(workers := s.workers[w := Began(s.clock)])
    case Select(w) =>
      if w in s.workers && s.workers[w].Began? && Due(s.row, s.workers[w].now) then
        s.(workers := s.workers[w := Selected(s.workers[w].now, s.row.nextRun.value, s.row.interval)])
      else s.(workers := s.workers - {w})
    case Swap(w) =>
      if w !in s.workers || !s.workers[w].Selected? then s
      else
        var worker := s.workers[w];
        var won := s.row.enabled && s.row.nextRun == Some(worker.expected);
        s.(row := ClaimRow(s.row, worker.expected, worker.now, worker.interval),
           workers := s.workers - {w},
           log := if won then s.log + [Claim(worker.expected, worker.now)] else s.log)
    case Disable => s.(row := DisableRow(s.row))
    case Open(x) => s.(editors := s.editors[x := Editor(s.clock, s.row)])
    case Save(x, enabled, interval) =>
      if x !in s.editors then s
      else s.(row := EditRow(s.row, s.editors[x].loaded, s.editors[x].at, enabled, interval),
              editors := s.editors - {x})
  }

  function Run(s: System, events: seq<Event>): System
    decreases |events|
  {
    if events == [] then s else Step(Run(s, events[..|events| - 1]), events[|events| - 1])
  }

  /** Nobody has claimed the schedule yet, and nothing is under way. */
  predicate Fresh(s: System) {
    s.workers == map[] && s.editors == map[] && s.log == [] && s.row.lastRun == None
  }

  // ---------------------------------------------------------------- what holds throughout

  const MIN_GAP: int := MIN_INTERVAL * MINUTE

  /** What is promised of the claims: no due run twice, and the minimum interval between any two. */
  ghost predicate Good(log: seq<Claim>) {
    forall i, j | 0 <= i < j < |log| :: log[i].slot != log[j].slot && log[i].time + MIN_GAP <= log[j].time
  }

  /** What holds whatever edits do: nobody is ahead of the clock, every claim was due, and the row keeps the time of
      the last one. */
  ghost predicate Sound(s: System) {
    && (forall w <- s.workers :: s.workers[w].now <= s.clock)
    && (forall w <- s.workers :: s.workers[w].Selected? ==> s.workers[w].expected <= s.workers[w].now)
    && (forall x <- s.editors :: s.editors[x].at <= s.clock)
    && (forall c <- s.log :: c.slot <= c.time <= s.clock)
    && s.row.lastRun == (if s.log == [] then None else Some(s.log[|s.log| - 1].time))
  }

  /** The earliest moment the minimum interval allows the next claim. */
  function Earliest(row: Row): Option<int> {
    if row.lastRun.Some? then Some(row.lastRun.value + MIN_GAP) else None
  }

  /** The worker is in time to claim the run due at `v`, but claims it too early. */
  predicate Hasty(worker: Worker, v: int, row: Row) {
    && Earliest(row).Some? && worker.now < Earliest(row).value
    && (if worker.Began? then v <= worker.now else worker.expected == v)
  }

  /** Whoever may claim the run due at `v`, now or later, does no harm: it was not claimed before, and neither the
      clock nor a worker under way allows a claim too early. */
  ghost predicate Claimable(s: System, v: int) {
    && (forall c <- s.log :: c.slot != v)
    && (Earliest(s.row).Some? ==> Earliest(s.row).value <= v || Earliest(s.row).value <= s.clock)
    && (forall w <- s.workers :: !Hasty(s.workers[w], v, s.row))
  }

  /** The claims are good so far, and the next run of an enabled schedule is claimable. */
  ghost predicate Safe(s: System) {
    && Sound(s) && Good(s.log)
    && (s.row.enabled && s.row.nextRun.Some? ==> Claimable(s, s.row.nextRun.value))
  }

  predicate NoSaves(events: seq<Event>) {
    forall e <- events :: !e.Save?
  }

  lemma StepKeepsSound(s: System, e: Event)
    requires Sound(s)
    ensures Sound(Step(s, e))
  {
  }

  lemma GoodBelowLast(log: seq<Claim>, c: Claim)
    requires Good(log) && c in log
    ensures c.time <= log[|log| - 1].time
  {
    var i :| 0 <= i < |log| && log[i] == c;
    assert i < |log| - 1 ==> log[i].time + MIN_GAP <= log[|log| - 1].time;
  }

  lemma GoodAppend(log: seq<Claim>, c: Claim)
    requires Good(log) && forall earlier <- log :: earlier.slot != c.slot
    requires log != [] ==> log[|log| - 1].time + MIN_GAP <= c.time
    ensures Good(log + [c])
  {
    forall i | 0 <= i < |log|
      ensures log[i].slot != c.slot && log[i].time + MIN_GAP <= c.time
    {
      assert log[i] in log;
      GoodBelowLast(log, log[i]);
    }
  }

  /** The run due at `v` is at least the minimum interval after the last claim. */
  lemma LaterRunClaimable(s: System, v: int)
    requires Sound(s) && Good(s.log) && (Earliest(s.row).Some? ==> Earliest(s.row).value <= v)
    ensures Claimable(s, v)
  {
    forall c <- s.log
      ensures c.slot != v
    {
      GoodBelowLast(s.log, c);
    }
  }

  predicate Wins(s: System, w: nat) {
    w in s.workers && s.workers[w].Selected? && s.row.enabled && s.row.nextRun == Some(s.workers[w].expected)
  }

  lemma WonSwapIsGood(s: System, w: nat)
    requires Safe(s) && Wins(s, w)
    ensures Good(Step(s, Swap(w)).log)
  {
    GoodAppend(s.log, Claim(s.workers[w].expected, s.workers[w].now));
  }

  lemma SwapKeepsSafe(s: System, w: nat)
    requires Safe(s)
    ensures Safe(Step(s, Swap(w)))
  {
    StepKeepsSound(s, Swap(w));
    if Wins(s, w) {
      WonSwapIsGood(s, w);
      LaterRunClaimable(Step(s, Swap(w)), After(s.workers[w].now, s.workers[w].interval));
    } else {
      LostSwapKeepsSafe(s, w);
    }
  }

  lemma LostSwapKeepsSafe(s: System, w: nat)
    requires Safe(s) && !Wins(s, w)
    ensures Safe(Step(s, Swap(w)))
  {
  }

  lemma StepKeepsSafe(s: System, e: Event)
    requires Safe(s) && !e.Save?
    ensures Safe(Step(s, e))
  {
    match e
    case Tick(elapsed) => TickKeepsSafe(s, elapsed);
    case Begin(w) => WorkerKeepsSafe(s, e, w);
    case Select(w) => WorkerKeepsSafe(s, e, w);
    case Swap(w) => SwapKeepsSafe(s, w);
    case Disable => StepKeepsSound(s, e);
    case Open(_) => StepKeepsSound(s, e);
  }

  lemma TickKeepsSafe(s: System, elapsed: nat)
    requires Safe(s)
    ensures Safe(Step(s, Tick(elapsed)))
  {
    StepKeepsSound(s, Tick(elapsed));
  }

  /** Workers that have yet to claim. */
  lemma WorkerKeepsSafe(s: System, e: Event, w: nat)
    requires Safe(s) && (e == Begin(w) || e == Select(w))
    ensures Safe(Step(s, e))
  {
    StepKeepsSound(s, e);
  }

  lemma {:induction false} NoSavesKeepSafe(s: System, events: seq<Event>)
    requires Safe(s) && NoSaves(events)
    ensures Safe(Run(s, events))
    decreases |events|
  {
    if events != [] {
      var n := |events| - 1;
      assert forall e <- events[..n] :: e in events;
      assert events[n] in events;
      NoSavesKeepSafe(s, events[..n]);
      StepKeepsSafe(Run(s, events[..n]), events[n]);
    }
  }

  // ---------------------------------------------------------------- how the promise breaks

  lemma RunOneMore(s: System, events: seq<Event>, e: Event)
    ensures Run(s, events + [e]) == Step(Run(s, events), e)
  {
    assert (events + [e])[..|events|] == events;
  }

  /** A claim that repeats a run or comes too early breaks the promise. */
  lemma BadClaim(log: seq<Claim>, c: Claim)
    requires (exists earlier :: earlier in log && earlier.slot == c.slot)
          || (log != [] && c.time < log[|log| - 1].time + MIN_GAP)
    ensures !Good(log + [c])
  {
    var now := log + [c];
    if earlier :| earlier in log && earlier.slot == c.slot {
      var i :| 0 <= i < |log| && log[i] == earlier;
      assert now[i].slot == now[|log|].slot;
    } else {
      assert now[|log| - 1] == log[|log| - 1] && now[|log|] == c;
    }
  }

  lemma HastySwap(s: System, w: nat)
    requires Sound(s) && s.row.enabled && s.row.nextRun.Some?
    requires w in s.workers && s.workers[w].Selected? && Hasty(s.workers[w], s.row.nextRun.value, s.row)
    ensures !Good(Step(s, Swap(w)).log)
  {
    BadClaim(s.log, Claim(s.workers[w].expected, s.workers[w].now));
  }

  lemma HastySelect(s: System, w: nat)
    requires Sound(s) && s.row.enabled && s.row.nextRun.Some?
    requires w in s.workers && s.workers[w].Began? && Hasty(s.workers[w], s.row.nextRun.value, s.row)
    ensures !Good(Step(Step(s, Select(w)), Swap(w)).log)
  {
    StepKeepsSound(s, Select(w));
    HastySwap(Step(s, Select(w)), w);
  }

  /** A new worker claims the run as soon as it is due. */
  lemma NewWorker(s: System)
    requires s.row.enabled && s.row.nextRun.Some?
    ensures var v := s.row.nextRun.value;
            var wait := if v <= s.clock then 0 else v - s.clock;
            Step(Step(Step(Step(s, Tick(wait)), Begin(0)), Select(0)), Swap(0)).log
            == s.log + [Claim(v, s.clock + wait)]
  {
  }

  /** From a state that is not safe, some continuation without any further edit breaks the promise. */
  lemma UnsafeBreaks(s: System) returns (more: seq<Event>)
    requires Sound(s) && !Safe(s)
    ensures NoSaves(more) && !Good(Run(s, more).log)
  {
    if !Good(s.log) {
      more := [];
    } else {
      var v := s.row.nextRun.value;
      if w :| w in s.workers && Hasty(s.workers[w], v, s.row) {
        if s.workers[w].Selected? {
          HastySwap(s, w);
          RunOneMore(s, [], Swap(w));
          more := [] + [Swap(w)];
        } else {
          HastySelect(s, w);
          RunOneMore(s, [], Select(w));
          RunOneMore(s, [] + [Select(w)], Swap(w));
          more := [] + [Select(w)] + [Swap(w)];
        }
      } else {
        more := WaitAndClaim(s);
      }
    }
  }

  lemma WaitAndClaim(s: System) returns (more: seq<Event>)
    requires Sound(s) && s.row.enabled && s.row.nextRun.Some?
    requires (exists c :: c in s.log && c.slot == s.row.nextRun.value)
          || (Earliest(s.row).Some? && s.row.nextRun.value < Earliest(s.row).value && s.clock < Earliest(s.row).value)
    ensures NoSaves(more) && !Good(Run(s, more).log)
  {
    var v := s.row.nextRun.value;
    var wait := if v <= s.clock then 0 else v - s.clock;
    NewWorker(s);
    BadClaim(s.log, Claim(v, s.clock + wait));
    RunOneMore(s, [], Tick(wait));
    RunOneMore(s, [] + [Tick(wait)], Begin(0));
    RunOneMore(s, [] + [Tick(wait)] + [Begin(0)], Select(0));
    RunOneMore(s, [] + [Tick(wait)] + [Begin(0)] + [Select(0)], Swap(0));
    more := [] + [Tick(wait)] + [Begin(0)] + [Select(0)] + [Swap(0)];
  }

  /** Safety is exact for the promise: the claims stay good over every continuation without edits just when the state
      is safe. */
  lemma SafeIff(s: System)
    requires Sound(s)
    ensures Safe(s) <==> forall more: seq<Event> :: NoSaves(more) ==> Good(Run(s, more).log)
  {
    if Safe(s) {
      forall more: seq<Event> | NoSaves(more)
        ensures Good(Run(s, more).log)
      {
        NoSavesKeepSafe(s, more);
      }
    } else {
      var more := UnsafeBreaks(s);
    }
  }

  // ---------------------------------------------------------------- edits

  /** The next run that an edit sets, if it sets one. */
  function SetBy(s: System, e: Event): Option<int> {
    if e.Save? && e.editor in s.editors && SetsNextRun(s.editors[e.editor].loaded, e.enabled) then
      Some(After(s.editors[e.editor].at, e.interval))
    else None
  }

  /** Read off the stored row: the run the edit sets is at least the minimum interval after the last claim. */
  predicate OnTime(s: System, e: Event) {
    SetBy(s, e).Some? && Earliest(s.row).Some? ==> Earliest(s.row).value <= SetBy(s, e).value
  }

  predicate AllOnTime(s: System, events: seq<Event>) {
    forall k | 0 <= k < |events| :: OnTime(Run(s, events[..k]), events[k])
  }

  /** An edit that sets no next run does no harm, and one that does does harm just when the schedule ends up enabled
      with a run that is not claimable. */
  lemma SaveKeepsSafeIff(s: System, e: Event)
    requires Safe(s) && e.Save?
    ensures Safe(Step(s, e)) <==>
              SetBy(s, e).None? || !Step(s, e).row.enabled || Claimable(s, SetBy(s, e).value)
  {
    StepKeepsSound(s, e);
  }

  /** An edit is harmless just when it sets no next run, leaves the schedule disabled, or sets one that is claimable:
      otherwise some continuation repeats a run or claims it too early. */
  lemma SaveHarmlessIff(s: System, e: Event)
    requires Safe(s) && e.Save?
    ensures (forall more: seq<Event> :: NoSaves(more) ==> Good(Run(Step(s, e), more).log)) <==>
              SetBy(s, e).None? || !Step(s, e).row.enabled || Claimable(s, SetBy(s, e).value)
  {
    StepKeepsSound(s, e);
    SafeIff(Step(s, e));
    SaveKeepsSafeIff(s, e);
  }

  /** What the stored row and the clock tell of that: an edit on time is harmless; one that is not, saved before the
      last claim's minimum interval is over, lets some continuation break the promise. */
  lemma LateSaveBreaks(s: System, e: Event) returns (more: seq<Event>)
    requires Safe(s) && e.Save? && Step(s, e).row.enabled && !OnTime(s, e) && s.clock < Earliest(s.row).value
    ensures NoSaves(more) && !Good(Run(Step(s, e), more).log)
  {
    StepKeepsSound(s, e);
    SaveKeepsSafeIff(s, e);
    more := UnsafeBreaks(Step(s, e));
  }

  lemma OnTimeKeepsSafe(s: System, e: Event)
    requires Safe(s) && OnTime(s, e)
    ensures Safe(Step(s, e))
  {
    if e.Save? {
      SaveKeepsSafeIff(s, e);
      if SetBy(s, e).Some? {
        LaterRunClaimable(s, SetBy(s, e).value);
      }
    } else {
      StepKeepsSafe(s, e);
    }
  }

  lemma {:induction false} RunKeepsSafe(s: System, events: seq<Event>)
    requires Fresh(s) && AllOnTime(s, events)
    ensures Safe(Run(s, events))
    decreases |events|
  {
    if events != [] {
      var n := |events| - 1;
      var earlier := events[..n];
      assert forall k | 0 <= k < n :: earlier[..k] == events[..k] && earlier[k] == events[k];
      RunKeepsSafe(s, earlier);
      assert OnTime(Run(s, events[..n]), events[n]);
      OnTimeKeepsSafe(Run(s, earlier), events[n]);
    }
  }

  /** No due run is claimed twice, and any two claims of the schedule are the minimum interval apart, whatever the
      workers' interleaving, across any edits that are on time. */
  lemma ClaimsExclusiveAndSpaced(s: System, events: seq<Event>)
    requires Fresh(s) && AllOnTime(s, events)
    ensures Good(Run(s, events).log)
  {
    RunKeepsSafe(s, events);
  }

  /** Every saved edit was opened by the step just before it. */
  predicate AtomicEdits(events: seq<Event>) {
    forall k | 0 <= k < |events| && events[k].Save? :: k > 0 && events[k - 1] == Open(events[k].editor)
  }

  /** An edit saved right after it was opened counts from the clock, so it is on time. */
  lemma FreshEditOnTime(s: System, x: nat, enabled: bool, interval: Interval)
    requires Sound(s)
    ensures OnTime(Step(s, Open(x)), Save(x, enabled, interval))
  {
    if s.log != [] {
      assert s.log[|s.log| - 1] in s.log;
    }
  }

  lemma {:induction false} AtomicEditsOnTime(s: System, events: seq<Event>)
    requires Fresh(s) && AtomicEdits(events)
    ensures AllOnTime(s, events)
    decreases |events|
  {
    if events != [] {
      var n := |events| - 1;
      var earlier := events[..n];
      AtomicEditsOnTime(s, earlier);
      forall k | 0 <= k < |events|
        ensures OnTime(Run(s, events[..k]), events[k])
      {
        if k < n {
          assert earlier[..k] == events[..k] && earlier[k] == events[k];
        } else if events[n].Save? {
          JustOpened(s, events);
        }
      }
    }
  }

  lemma {:induction false} RunKeepsSound(s: System, events: seq<Event>)
    requires Fresh(s)
    ensures Sound(Run(s, events))
    decreases |events|
  {
    if events != [] {
      RunKeepsSound(s, events[..|events| - 1]);
      StepKeepsSound(Run(s, events[..|events| - 1]), events[|events| - 1]);
    }
  }

  lemma JustOpened(s: System, events: seq<Event>)
    requires Fresh(s) && AtomicEdits(events) && events != [] && events[|events| - 1].Save?
    ensures OnTime(Run(s, events[..|events| - 1]), events[|events| - 1])
  {
    var n := |events| - 1;
    var e := events[n];
    assert events[..n][..n - 1] == events[..n - 1];
    RunKeepsSound(s, events[..n - 1]);
    FreshEditOnTime(Run(s, events[..n - 1]), e.editor, e.enabled, e.interval);
  }

  /** With uninterrupted edits, the guarantee needs nothing else. */
  lemma AtomicEditsExclusiveAndSpaced(s: System, events: seq<Event>)
    requires Fresh(s) && AtomicEdits(events)
    ensures Good(Run(s, events).log)
  {
    AtomicEditsOnTime(s, events);
    ClaimsExclusiveAndSpaced(s, events);
  }

  /** With uninterrupted edits an enabled schedule never loses its next run, and a disabled one has none. */
  lemma {:induction false} ScheduledIffEnabled(s: System, events: seq<Event>)
    requires Fresh(s) && AtomicEdits(events)
    requires s.row.enabled <==> s.row.nextRun.Some?
    ensures Run(s, events).row.enabled <==> Run(s, events).row.nextRun.Some?
    decreases |events|
  {
    if events != [] {
      var n := |events| - 1;
      ScheduledIffEnabled(s, events[..n]);
      if events[n].Save? {
        SaveUninterrupted(s, events);
      }
    }
  }

  lemma SaveUninterrupted(s: System, events: seq<Event>)
    requires events != [] && events[|events| - 1].Save? && AtomicEdits(events)
    ensures var before := Run(s, events[..|events| - 1]);
            events[|events| - 1].editor in before.editors &&
            before.editors[events[|events| - 1].editor].loaded == before.row
  {
    var n := |events| - 1;
    assert events[..n][..n - 1] == events[..n - 1];
  }

  // ---------------------------------------------------------------- workers

  /** When two workers have selected the same run, the second one to swap claims nothing. */
  lemma OneWinner(s: System, a: nat, b: nat)
    requires Sound(s)
    requires a != b && a in s.workers && b in s.workers && s.workers[a].Selected? && s.workers[b].Selected?
    requires s.workers[a].expected == s.workers[b].expected
    ensures |Run(s, [Swap(a), Swap(b)]).log| <= |s.log| + 1
    ensures s.row.enabled && s.row.nextRun == Some(s.workers[a].expected) ==>
              Run(s, [Swap(a), Swap(b)]).log == s.log + [Claim(s.workers[a].expected, s.workers[a].now)]
  {
    RunOneMore(s, [], Swap(a));
    RunOneMore(s, [Swap(a)], Swap(b));
    assert [] + [Swap(a)] == [Swap(a)] && [Swap(a)] + [Swap(b)] == [Swap(a), Swap(b)];
  }

  /** A worker left alone claims a due schedule. */
  lemma AloneClaims(s: System, w: nat)
    requires Due(s.row, s.clock)
    ensures var after := Step(Step(Step(s, Begin(w)), Select(w)), Swap(w));
            && after.log == s.log + [Claim(s.row.nextRun.value, s.clock)]
            && after.row.lastRun == Some(s.clock)
            && after.row.nextRun == Some(s.clock + s.row.interval * MINUTE)
  {
  }

  /** A worker takes up a schedule just when that is enabled and its next run is not in the future. */
  lemma TakesUpIff(s: System, w: nat)
    ensures var after := Step(Step(s, Begin(w)), Select(w));
            w in after.workers <==>
              s.row.enabled && exists next :: s.row.nextRun == Some(next) && next <= s.clock
  {
  }

  // ---------------------------------------------------------------- what a late edit can do

  const OFF := Row(false, None, None, 5)
  const START := System(0, OFF, map[], map[], [])

  /** Two edits load the switched-off row; one switches it on at once, and its first run comes due. */
  const OPENING := [Open(0)] + [Open(1)] + [Save(1, true, 5)] + [Tick(5 * MINUTE)]

  lemma OpeningState()
    ensures Run(START, OPENING) ==
            System(5 * MINUTE, Row(true, Some(5 * MINUTE), None, 5), map[], map[0 := Editor(0, OFF)], [])
  {
    RunFour(START, Open(0), Open(1), Save(1, true, 5), Tick(5 * MINUTE));
    BothOpened();
  }

  lemma RunFour(s: System, a: Event, b: Event, c: Event, d: Event)
    ensures Run(s, [a] + [b] + [c] + [d]) == Step(Step(Step(Step(s, a), b), c), d)
  {
    RunOneMore(s, [a] + [b] + [c], d);
    RunOneMore(s, [a] + [b], c);
    RunOneMore(s, [a], b);
    RunOneMore(s, [], a);
    assert [] + [a] == [a];
  }

  lemma BothOpened()
    ensures var opening := Step(Step(START, Open(0)), Open(1));
            && opening == START.(editors := map[0 := Editor(0, OFF), 1 := Editor(0, OFF)])
            && Step(opening, Save(1, true, 5)) ==
               START.(row := Row(true, Some(5 * MINUTE), None, 5), editors := map[0 := Editor(0, OFF)])
  {
    assert map[0 := Editor(0, OFF), 1 := Editor(0, OFF)] - {1} == map[0 := Editor(0, OFF)];
  }

  function Claiming(events: seq<Event>): seq<Event> {
    events + [Begin(0)] + [Select(0)] + [Swap(0)]
  }

  lemma ClaimingState(s: System, events: seq<Event>)
    requires Run(s, events).row.enabled && Run(s, events).row.nextRun == Some(5 * MINUTE)
    requires Run(s, events).clock == 5 * MINUTE && Run(s, events).row.interval == 5
    requires Run(s, events).workers == map[]
    ensures Run(s, Claiming(events)) ==
            Run(s, events).(row := Row(true, Some(10 * MINUTE), Some(5 * MINUTE), 5),
                            log := Run(s, events).log + [Claim(5 * MINUTE, 5 * MINUTE)])
  {
    RunOneMore(s, events, Begin(0));
    RunOneMore(s, events + [Begin(0)], Select(0));
    RunOneMore(s, events + [Begin(0)] + [Select(0)], Swap(0));
  }

  /** An edit that stalls past a claim can put the claimed run back, and it is claimed again. */
  lemma LateEditRepeatsClaim()
    ensures exists s, events :: Fresh(s) && |Run(s, events).log| == 2 && Run(s, events).log[0] == Run(s, events).log[1]
  {
    OpeningState();
    ClaimingState(START, OPENING);
    var once := Claiming(OPENING);
    RunOneMore(START, once, Save(0, true, 5));
    ClaimingState(START, once + [Save(0, true, 5)]);
    assert |Run(START, Claiming(once + [Save(0, true, 5)])).log| == 2;
  }
}
