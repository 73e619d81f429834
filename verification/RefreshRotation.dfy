/** Refresh-token rotation: requests load a user and then raise its token version only if nobody has in between,
    while logouts and password changes raise it by writing back what they loaded plus one. */
module RefreshRotation {
  import opened Wrappers

  datatype Kind = Access | Refresh | TwoFactor

  /** A signed token, decoded. */
  datatype Token = Token(kind: Kind, user: string, version: nat)

  datatype Account = Account(user: string, active: bool, version: nat)

  /** The checks a refresh request makes on what it decoded and loaded. */
  predicate MayRefresh(account: Account, token: Option<Token>) {
    && token.Some? && token.value.kind == Refresh && token.value.user == account.user
    && account.active && token.value.version == account.version
  }

  /** The checks an ordinary request makes. The browser session may also present its refresh token. */
  predicate Accepted(account: Account, token: Option<Token>, allowRefresh: bool) {
    && token.Some? && (token.value.kind == Access || (allowRefresh && token.value.kind == Refresh))
    && token.value.user == account.user && account.active && token.value.version == account.version
  }

  /** Only a refresh token of this user, of the version that stands, refreshes, and only while the user is active. */
  lemma MayRefreshIff(account: Account, token: Option<Token>)
    ensures MayRefresh(account, token) <==>
            account.active && token == Some(Token(Refresh, account.user, account.version))
  {
  }

  /** An ordinary request is accepted with the access token of the version that stands, or with its refresh token where
      the browser session presents that; never with a two-factor token. */
  lemma AcceptedIff(account: Account, token: Option<Token>, allowRefresh: bool)
    ensures Accepted(account, token, allowRefresh) <==>
            && account.active
            && (|| token == Some(Token(Access, account.user, account.version))
                || (allowRefresh && token == Some(Token(Refresh, account.user, account.version))))
  {
  }

  /** The user's row as the code updates it. */
  class User {
    const user: string
    var active: bool
    var version: nat

    function State(): Account
      reads this
    {
      Account(user, active, version)
    }

    constructor (account: Account)
      ensures State() == account
    {
      user, active, version := account.user, account.active, account.version;
    }

    /** The conditional update of a rotation; it returns the new version, or nothing if no row matched. */
    method Rotate(loaded: nat) returns (issued: Option<nat>)
      modifies this
      ensures State() == Rotated(old(State()), loaded)
      ensures issued == if old(version) == loaded then Some(loaded + 1) else None
    {
      issued := None;
      if version == loaded {
        version := version + 1;
        issued := Some(version);
      }
    }

    /** The write-back of a logout or password change that loaded the user earlier. */
    method WriteBack(loaded: nat)
      modifies this
      ensures State() == old(State()).(version := loaded + 1)
    {
      version := loaded + 1;
    }
  }

  function Rotated(account: Account, loaded: nat): Account {
    if account.version == loaded then account.(version := loaded + 1) else account
  }

  // ---------------------------------------------------------------- the protocol

  /** A completed rotation: the version of the token that was spent, and of the pair that replaced it. */
  datatype Rotation = Rotation(spent: nat, issued: nat)

  /** Requests in flight hold the version they loaded. */
  datatype System = System(account: Account, requests: map<nat, nat>, bumps: map<nat, nat>, log: seq<Rotation>)

  datatype Event =
    | Load(request: nat, token: Option<Token>)
    | Swap(request: nat)
    | LoadBump(bump: nat)
    | CommitBump(bump: nat)
    | SetActive(active: bool)

  function Step(s: System, e: Event): System {
    match e
    case Load(r, token) =>
      if MayRefresh(s.account, token) then s.(requests := s.requests[r := s.account.version])
      else s.(requests := s.requests - {r})
    case Swap(r) =>
      if r !in s.requests then s
      else
        var loaded := s.requests[r];
        s.(account := Rotated(s.account, loaded),
           requests := s.requests - {r},
           log := if s.account.version == loaded then s.log + [Rotation(loaded, loaded + 1)] else s.log)
    case LoadBump(b) => s.(bumps := s.bumps[b := s.account.version])
    case CommitBump(b) =>
      if b !in s.bumps then s
      else s.(account := s.account.(version := s.bumps[b] + 1), bumps := s.bumps - {b})
    case SetActive(active) => s.(account := s.account.(active := active))
  }

  function Run(s: System, events: seq<Event>): System
    decreases |events|
  {
    if events == [] then s else Step(Run(s, events[..|events| - 1]), events[|events| - 1])
  }

  predicate Fresh(s: System) {
    s.requests == map[] && s.bumps == map[] && s.log == []
  }

  /** The write-back does not take the version back: at most one other change came in between. */
  predicate KeepsUp(s: System, e: Event) {
    e.CommitBump? && e.bump in s.bumps ==> s.account.version <= s.bumps[e.bump] + 1
  }

  /** How the version stood before each event, up to and including the last. */
  function VersionAt(s: System, events: seq<Event>, k: nat): nat
    requires k <= |events|
  {
    Run(s, events[..k]).account.version
  }

  predicate AllKeepUp(s: System, events: seq<Event>) {
    forall k | 0 <= k < |events| :: KeepsUp(Run(s, events[..k]), events[k])
  }

  // ---------------------------------------------------------------- versions

  lemma StepVersion(s: System, e: Event)
    ensures s.account.version <= Step(s, e).account.version <==> KeepsUp(s, e)
    ensures |Step(s, e).log| > |s.log| ==> s.account.version < Step(s, e).account.version
    ensures Step(s, e).account.user == s.account.user
  {
  }

  lemma RunOneMore(s: System, events: seq<Event>, k: nat)
    requires k < |events|
    ensures Run(s, events[..k + 1]) == Step(Run(s, events[..k]), events[k])
  {
    assert events[..k + 1][..k] == events[..k];
  }

  lemma {:induction false} NeverFalls(s: System, events: seq<Event>, i: nat, j: nat)
    requires i <= j <= |events| && AllKeepUp(s, events)
    ensures VersionAt(s, events, i) <= VersionAt(s, events, j)
    decreases j - i
  {
    if i < j {
      NeverFalls(s, events, i, j - 1);
      RunOneMore(s, events, j - 1);
      StepVersion(Run(s, events[..j - 1]), events[j - 1]);
    }
  }

  /** The version never falls just when no write-back is two changes late. */
  lemma RevocationLastsIff(s: System, events: seq<Event>)
    ensures AllKeepUp(s, events) <==>
            forall i, j | 0 <= i <= j <= |events| :: VersionAt(s, events, i) <= VersionAt(s, events, j)
  {
    if AllKeepUp(s, events) {
      forall i, j | 0 <= i <= j <= |events|
        ensures VersionAt(s, events, i) <= VersionAt(s, events, j)
      {
        NeverFalls(s, events, i, j);
      }
    } else {
      var k := FirstLate(s, events);
      assert VersionAt(s, events, k + 1) < VersionAt(s, events, k);
    }
  }

  lemma FirstLate(s: System, events: seq<Event>) returns (k: nat)
    requires !AllKeepUp(s, events)
    ensures k < |events| && VersionAt(s, events, k + 1) < VersionAt(s, events, k)
  {
    k :| 0 <= k < |events| && !KeepsUp(Run(s, events[..k]), events[k]);
    RunOneMore(s, events, k);
    StepVersion(Run(s, events[..k]), events[k]);
  }

  /** The version has been the account's at some point up to event `k`. */
  ghost predicate Held(s: System, events: seq<Event>, k: nat, version: nat)
    requires k <= |events|
  {
    exists i :: 0 <= i <= k && VersionAt(s, events, i) == version
  }

  /** The highest version held up to event `k`. */
  ghost function Highest(s: System, events: seq<Event>, k: nat): nat
    requires k <= |events|
  {
    var now := VersionAt(s, events, k);
    if k == 0 || now >= Highest(s, events, k - 1) then now else Highest(s, events, k - 1)
  }

  /** What write-backs under way have loaded lies between the first and the highest version held, and one step goes
      at most one above these. */
  ghost predicate LoadedFrom(s: System, low: nat, high: nat) {
    low <= s.account.version <= high && forall b <- s.bumps :: low <= s.bumps[b] <= high
  }

  lemma StepLoadedFrom(s: System, e: Event, low: nat, high: nat)
    requires LoadedFrom(s, low, high)
    ensures Step(s, e).account.version <= high + 1
    ensures LoadedFrom(Step(s, e), low, if Step(s, e).account.version <= high then high else high + 1)
  {
  }

  /** No version between the first and the highest is ever skipped. */
  lemma {:induction false} NoneSkipped(s: System, events: seq<Event>, k: nat)
    requires Fresh(s) && k <= |events|
    ensures LoadedFrom(Run(s, events[..k]), s.account.version, Highest(s, events, k))
    ensures forall v: nat | s.account.version <= v <= Highest(s, events, k) :: Held(s, events, k, v)
  {
    if k == 0 {
      assert VersionAt(s, events, 0) == s.account.version;
    } else {
      NoneSkipped(s, events, k - 1);
      RunOneMore(s, events, k - 1);
      StepLoadedFrom(Run(s, events[..k - 1]), events[k - 1], s.account.version, Highest(s, events, k - 1));
      assert Held(s, events, k, VersionAt(s, events, k));
      forall v: nat | s.account.version <= v <= Highest(s, events, k - 1)
        ensures Held(s, events, k, v)
      {
        assert Held(s, events, k - 1, v);
      }
    }
  }

  /** A fall of the version lands on one the account held before. */
  lemma FallReturnsHeld(s: System, events: seq<Event>, k: nat)
    requires Fresh(s) && k < |events| && VersionAt(s, events, k + 1) < VersionAt(s, events, k)
    ensures Held(s, events, k, VersionAt(s, events, k + 1))
  {
    NoneSkipped(s, events, k);
    NoneSkipped(s, events, k + 1);
  }

  /** A version that has been left is never the account's again just when no write-back is two changes late. */
  lemma NeverReturnsIff(s: System, events: seq<Event>)
    requires Fresh(s)
    ensures AllKeepUp(s, events) <==>
            forall i, j, k | 0 <= i <= j <= k <= |events| && VersionAt(s, events, i) != VersionAt(s, events, j) ::
              VersionAt(s, events, k) != VersionAt(s, events, i)
  {
    if AllKeepUp(s, events) {
      forall i, j, k | 0 <= i <= j <= k <= |events| && VersionAt(s, events, i) != VersionAt(s, events, j)
        ensures VersionAt(s, events, k) != VersionAt(s, events, i)
      {
        NeverFalls(s, events, i, j);
        NeverFalls(s, events, j, k);
      }
    } else {
      var k := FirstLate(s, events);
      FallReturnsHeld(s, events, k);
      var i :| 0 <= i <= k && VersionAt(s, events, i) == VersionAt(s, events, k + 1);
      assert VersionAt(s, events, i) != VersionAt(s, events, k);
    }
  }

  /** After a rotation, no token of the spent version or an earlier one is accepted or refreshed again. */
  lemma SpentTokensRejected(s: System, events: seq<Event>, k: nat, later: nat, token: Token, allowRefresh: bool)
    requires k < later <= |events| && AllKeepUp(s, events)
    requires |Run(s, events[..k + 1]).log| > |Run(s, events[..k]).log|
    requires token.version <= VersionAt(s, events, k)
    ensures !MayRefresh(Run(s, events[..later]).account, Some(token))
    ensures !Accepted(Run(s, events[..later]).account, Some(token), allowRefresh)
  {
    RunOneMore(s, events, k);
    StepVersion(Run(s, events[..k]), events[k]);
    NeverFalls(s, events, k + 1, later);
  }

  // ---------------------------------------------------------------- rotations

  ghost predicate Invariant(s: System) {
    && (forall r <- s.requests :: s.requests[r] <= s.account.version)
    && (forall x <- s.log :: x.spent < x.issued == x.spent + 1 <= s.account.version)
    && (forall i, j | 0 <= i < j < |s.log| :: s.log[i].issued <= s.log[j].spent)
  }

  lemma StepKeepsInvariant(s: System, e: Event)
    requires Invariant(s) && KeepsUp(s, e)
    ensures Invariant(Step(s, e))
  {
    if e.Swap? && e.request in s.requests && s.requests[e.request] == s.account.version {
      assert forall x <- s.log :: x.issued <= s.account.version;
    }
  }

  lemma {:induction false} RunKeepsInvariant(s: System, events: seq<Event>)
    requires Fresh(s) && AllKeepUp(s, events)
    ensures Invariant(Run(s, events))
    decreases |events|
  {
    if events != [] {
      var n := |events| - 1;
      var earlier := events[..n];
      assert forall k | 0 <= k < n :: earlier[..k] == events[..k] && earlier[k] == events[k];
      RunKeepsInvariant(s, earlier);
      StepKeepsInvariant(Run(s, earlier), events[n]);
    }
  }

  /** At most one refresh succeeds for each token version, and each success issues a version above every version
      spent before it. */
  lemma OneRotationPerVersion(s: System, events: seq<Event>, i: nat, j: nat)
    requires Fresh(s) && AllKeepUp(s, events)
    requires i < j < |Run(s, events).log|
    ensures Run(s, events).log[i].spent < Run(s, events).log[j].spent
    ensures Run(s, events).log[i].issued < Run(s, events).log[j].issued
  {
    RunKeepsInvariant(s, events);
    var log := Run(s, events).log;
    assert log[i] in log && log[j] in log;
  }

  /** A bump that nothing interrupts keeps up. */
  predicate AtomicBumps(events: seq<Event>) {
    forall k | 0 <= k < |events| && events[k].CommitBump? :: k > 0 && events[k - 1] == LoadBump(events[k].bump)
  }

  lemma AtomicBumpsKeepUp(s: System, events: seq<Event>)
    requires Fresh(s) && AtomicBumps(events)
    ensures AllKeepUp(s, events)
  {
    forall k | 0 <= k < |events|
      ensures KeepsUp(Run(s, events[..k]), events[k])
    {
      if events[k].CommitBump? {
        RunOneMore(s, events, k - 1);
      }
    }
  }

  /** A logout revokes the tokens that are valid when it commits, unless the version has moved by exactly one since
      it loaded the user: then it writes the version that stands. */
  lemma LogoutRevokesIff(s: System, b: nat, token: Token)
    requires b in s.bumps && s.bumps[b] <= s.account.version
    requires s.account.active && token == Token(Access, s.account.user, s.account.version)
    ensures !Accepted(Step(s, CommitBump(b)).account, Some(token), false) <==>
            s.bumps[b] + 1 != s.account.version
  {
  }

  // ---------------------------------------------------------------- which write-backs do harm

  /** No version is refreshed twice. */
  ghost predicate OncePerVersion(log: seq<Rotation>) {
    forall i, j | 0 <= i < j < |log| :: log[i].spent != log[j].spent
  }

  predicate NoBumps(events: seq<Event>) {
    forall e <- events :: !e.CommitBump?
  }

  /** No version was refreshed twice, and none from the current one on was refreshed. */
  ghost predicate Safe(s: System) {
    OncePerVersion(s.log) && forall x <- s.log :: x.spent < s.account.version
  }

  lemma StepKeepsSafe(s: System, e: Event)
    requires Safe(s) && !e.CommitBump?
    ensures Safe(Step(s, e))
  {
    if e.Swap? && e.request in s.requests && s.requests[e.request] == s.account.version {
      assert forall i | 0 <= i < |s.log| :: s.log[i] in s.log;
    }
  }

  lemma {:induction false} NoBumpsKeepSafe(s: System, events: seq<Event>)
    requires Safe(s) && NoBumps(events)
    ensures Safe(Run(s, events))
    decreases |events|
  {
    if events != [] {
      var n := |events| - 1;
      assert forall e <- events[..n] :: e in events;
      assert events[n] in events;
      NoBumpsKeepSafe(s, events[..n]);
      StepKeepsSafe(Run(s, events[..n]), events[n]);
    }
  }

  function TokenFor(account: Account): Token {
    Token(Refresh, account.user, account.version)
  }

  /** One refresh request, start to end. */
  function Refreshing(s: System, token: Option<Token>): System {
    Step(Step(s, Load(0, token)), Swap(0))
  }

  lemma RefreshingState(s: System, token: Option<Token>)
    requires MayRefresh(s.account, token)
    ensures var v := s.account.version;
            Refreshing(s, token) == s.(account := s.account.(version := v + 1), requests := s.requests - {0},
                                       log := s.log + [Rotation(v, v + 1)])
  {
  }

  lemma OneMoreEvent(s: System, events: seq<Event>, e: Event)
    ensures Run(s, events + [e]) == Step(Run(s, events), e)
  {
    assert (events + [e])[..|events|] == events;
  }

  /** Refreshing once is a run of two events. */
  lemma RefreshRun(s: System, events: seq<Event>, token: Option<Token>)
    ensures Run(s, events + [Load(0, token)] + [Swap(0)]) == Refreshing(Run(s, events), token)
  {
    OneMoreEvent(s, events, Load(0, token));
    OneMoreEvent(s, events + [Load(0, token)], Swap(0));
  }

  /** Refreshing can go on up to any later version. */
  lemma {:induction false} RefreshedUpTo(s: System, version: nat) returns (more: seq<Event>)
    requires s.account.version <= version
    ensures NoBumps(more)
    ensures var now := Run(s, more);
            now.account == s.account.(active := true, version := version) && s.log <= now.log
    decreases version
  {
    if s.account.version == version {
      OneMoreEvent(s, [], SetActive(true));
      more := [] + [SetActive(true)];
    } else {
      var earlier := RefreshedUpTo(s, version - 1);
      more := OnceMore(s, earlier);
    }
  }

  lemma OnceMore(s: System, earlier: seq<Event>) returns (more: seq<Event>)
    requires NoBumps(earlier) && Run(s, earlier).account.active
    ensures NoBumps(more)
    ensures var before, now := Run(s, earlier), Run(s, more);
            var v := before.account.version;
            now.account == before.account.(version := v + 1) && now.log == before.log + [Rotation(v, v + 1)]
  {
    var token := Some(TokenFor(Run(s, earlier).account));
    RefreshRun(s, earlier, token);
    RefreshingState(Run(s, earlier), token);
    more := earlier + [Load(0, token)] + [Swap(0)];
  }

  /** From a state that is not safe, some continuation without write-backs refreshes a version twice. */
  lemma UnsafeRepeats(s: System) returns (more: seq<Event>)
    requires !Safe(s)
    ensures NoBumps(more) && !OncePerVersion(Run(s, more).log)
  {
    if !OncePerVersion(s.log) {
      more := [];
    } else {
      var i :| 0 <= i < |s.log| && s.log[i].spent >= s.account.version;
      var earlier := RefreshedUpTo(s, s.log[i].spent);
      more := OnceMore(s, earlier);
      var n := |Run(s, earlier).log|;
      assert Run(s, more).log[i].spent == Run(s, more).log[n].spent;
    }
  }

  /** Safety is exact: a version is refreshed twice in some continuation without write-backs just when the state is not
      safe. */
  lemma SafeIff(s: System)
    ensures Safe(s) <==> forall more: seq<Event> :: NoBumps(more) ==> OncePerVersion(Run(s, more).log)
  {
    if Safe(s) {
      forall more: seq<Event> | NoBumps(more)
        ensures OncePerVersion(Run(s, more).log)
      {
        NoBumpsKeepSafe(s, more);
      }
    } else {
      var more := UnsafeRepeats(s);
    }
  }

  /** The write-back lands above every version that was refreshed. */
  predicate Harmless(s: System, e: Event) {
    e.CommitBump? && e.bump in s.bumps ==> forall x <- s.log :: x.spent <= s.bumps[e.bump]
  }

  /** A write-back is harmless just when it lands above every version that was refreshed; otherwise some continuation
      refreshes one of these again. */
  lemma BumpHarmlessIff(s: System, e: Event)
    requires Safe(s) && e.CommitBump?
    ensures (forall more: seq<Event> :: NoBumps(more) ==> OncePerVersion(Run(Step(s, e), more).log)) <==> Harmless(s, e)
  {
    SafeIff(Step(s, e));
  }

  predicate AllHarmless(s: System, events: seq<Event>) {
    forall k | 0 <= k < |events| :: Harmless(Run(s, events[..k]), events[k])
  }

  /** No version is refreshed twice over any run whose write-backs are harmless, even where the version falls. */
  lemma {:induction false} HarmlessOncePerVersion(s: System, events: seq<Event>)
    requires Fresh(s) && AllHarmless(s, events)
    ensures Safe(Run(s, events))
    decreases |events|
  {
    if events != [] {
      var n := |events| - 1;
      var earlier := events[..n];
      assert forall k | 0 <= k < n :: earlier[..k] == events[..k] && earlier[k] == events[k];
      HarmlessOncePerVersion(s, earlier);
      if !events[n].CommitBump? {
        StepKeepsSafe(Run(s, earlier), events[n]);
      }
    }
  }

  /** A logout two rotations late puts back a version already spent, and a token of it is refreshed again. */
  lemma LateLogoutReplays(account: Account, token: Token)
    requires MayRefresh(account, Some(token))
    ensures var next := Some(token.(version := token.version + 1));
            var s1 := Step(System(account, map[], map[], []), LoadBump(0));
            var s2 := Refreshing(Refreshing(s1, Some(token)), next);
            var s3 := Refreshing(Step(s2, CommitBump(0)), next);
            |s3.log| == 3 && s3.log[1] == s3.log[2] && s3.log[1].spent == next.value.version
  {
    var next := Some(token.(version := token.version + 1));
    var s1 := Step(System(account, map[], map[], []), LoadBump(0));
    RefreshingState(s1, Some(token));
    var once := Refreshing(s1, Some(token));
    RefreshingState(once, next);
    RefreshingState(Step(Refreshing(once, next), CommitBump(0)), next);
  }

  // ---------------------------------------------------------------- what the log tells

  /** Request `r` was admitted by a refresh token of version `v` at some event. */
  ghost predicate Admitted(s: System, events: seq<Event>, r: nat, v: nat) {
    exists k: nat ::
      && k < |events| && Run(s, events[..k]).account.active && Run(s, events[..k]).account.version == v
      && events[k] == Load(r, Some(Token(Refresh, s.account.user, v)))
  }

  lemma AdmittedStill(s: System, events: seq<Event>, r: nat, v: nat)
    requires events != [] && Admitted(s, events[..|events| - 1], r, v)
    ensures Admitted(s, events, r, v)
  {
    var earlier := events[..|events| - 1];
    var k: nat :|
      && k < |earlier| && Run(s, earlier[..k]).account.active && Run(s, earlier[..k]).account.version == v
      && earlier[k] == Load(r, Some(Token(Refresh, s.account.user, v)));
    assert earlier[..k] == events[..k];
  }

  lemma AdmittedNow(s: System, events: seq<Event>, r: nat, token: Option<Token>)
    requires events != [] && events[|events| - 1] == Load(r, token)
    requires MayRefresh(Run(s, events[..|events| - 1]).account, token)
    requires Run(s, events[..|events| - 1]).account.user == s.account.user
    ensures Admitted(s, events, r, Run(s, events[..|events| - 1]).account.version)
  {
    MayRefreshIff(Run(s, events[..|events| - 1]).account, token);
    assert events[|events| - 1] == Load(r, Some(Token(Refresh, s.account.user,
                                                      Run(s, events[..|events| - 1]).account.version)));
  }

  ghost predicate SpentIn(pairs: iset<(nat, nat)>, v: nat) {
    exists r: nat :: (r, v) in pairs
  }

  /** Requests under way, and rotations in the log, are among these pairs of request and version. */
  ghost predicate Traced(s: System, pairs: iset<(nat, nat)>) {
    && (forall r <- s.requests :: (r, s.requests[r]) in pairs)
    && (forall i | 0 <= i < |s.log| :: SpentIn(pairs, s.log[i].spent) && s.log[i].issued == s.log[i].spent + 1)
  }

  ghost function Adds(s: System, e: Event): iset<(nat, nat)> {
    if e.Load? && MayRefresh(s.account, e.token) then iset{(e.request, s.account.version)} else iset{}
  }

  lemma TracedMore(s: System, pairs: iset<(nat, nat)>, more: iset<(nat, nat)>)
    requires Traced(s, pairs) && pairs <= more
    ensures Traced(s, more)
  {
    forall i | 0 <= i < |s.log|
      ensures SpentIn(more, s.log[i].spent)
    {
      var r: nat :| (r, s.log[i].spent) in pairs;
      assert (r, s.log[i].spent) in more;
    }
  }

  lemma StepTraced(s: System, e: Event, pairs: iset<(nat, nat)>)
    requires Traced(s, pairs)
    ensures Traced(Step(s, e), pairs + Adds(s, e))
  {
    TracedMore(s, pairs, pairs + Adds(s, e));
    if e.Swap? && e.request in s.requests && s.requests[e.request] == s.account.version {
      assert (e.request, s.account.version) in pairs;
      assert SpentIn(pairs + Adds(s, e), s.account.version);
    }
  }

  ghost function AdmittedPairs(s: System, events: seq<Event>): iset<(nat, nat)> {
    iset pair: (nat, nat) | Admitted(s, events, pair.0, pair.1)
  }

  lemma PairsAdmitted(s: System, events: seq<Event>)
    requires events != [] && Run(s, events[..|events| - 1]).account.user == s.account.user
    ensures var earlier := events[..|events| - 1];
            AdmittedPairs(s, earlier) + Adds(Run(s, earlier), events[|events| - 1]) <= AdmittedPairs(s, events)
  {
    var earlier, e := events[..|events| - 1], events[|events| - 1];
    forall pair | pair in AdmittedPairs(s, earlier)
      ensures pair in AdmittedPairs(s, events)
    {
      AdmittedStill(s, events, pair.0, pair.1);
    }
    forall pair | pair in Adds(Run(s, earlier), e)
      ensures pair in AdmittedPairs(s, events)
    {
      AdmittedNow(s, events, e.request, e.token);
    }
  }

  lemma {:induction false} SameUser(s: System, events: seq<Event>)
    ensures Run(s, events).account.user == s.account.user
    decreases |events|
  {
    if events != [] {
      SameUser(s, events[..|events| - 1]);
    }
  }

  lemma StepTracedIn(s: System, e: Event, pairs: iset<(nat, nat)>, more: iset<(nat, nat)>)
    requires Traced(s, pairs) && pairs + Adds(s, e) <= more
    ensures Traced(Step(s, e), more)
  {
    StepTraced(s, e, pairs);
    TracedMore(Step(s, e), pairs + Adds(s, e), more);
  }

  lemma FreshTraced(s: System, pairs: iset<(nat, nat)>)
    requires Fresh(s)
    ensures Traced(s, pairs)
  {
  }

  lemma RunLast(s: System, events: seq<Event>)
    ensures events == [] ==> Run(s, events) == s
    ensures events != [] ==> Run(s, events) == Step(Run(s, events[..|events| - 1]), events[|events| - 1])
  {
  }

  /** Every request under way, and every rotation in the log, was admitted by a valid refresh token of that version. */
  lemma {:induction false} RotationsWereAdmitted(s: System, events: seq<Event>)
    requires Fresh(s)
    ensures Traced(Run(s, events), AdmittedPairs(s, events))
    decreases |events|
  {
    var pairs := AdmittedPairs(s, events);
    RunLast(s, events);
    if events == [] {
      FreshTraced(s, pairs);
    } else {
      var earlier := events[..|events| - 1];
      RotationsWereAdmitted(s, earlier);
      SameUser(s, earlier);
      PairsAdmitted(s, events);
      StepTracedIn(Run(s, earlier), events[|events| - 1], AdmittedPairs(s, earlier), pairs);
    }
  }

  /** The pair that a rotation issues works: its access token is accepted and its refresh token refreshes. */
  lemma IssuedTokensWork(s: System, r: nat)
    requires r in s.requests && s.account.active && s.requests[r] == s.account.version
    ensures var after := Step(s, Swap(r));
            && |after.log| == |s.log| + 1
            && var v := after.log[|s.log|].issued;
               && Accepted(after.account, Some(Token(Access, s.account.user, v)), false)
               && MayRefresh(after.account, Some(Token(Refresh, s.account.user, v)))
  {
  }
}
