/** Whole runs of requests on API keys. A request loads the key that makes it, an edit then loads the key it is to
    change, and both go by what they loaded until they commit: how far authority can spread while they overlap. */
module KeyRuns {
  import opened Wrappers
  import opened Text
  import opened KeyDelegation

  /** A request is made by a session or with a stored key. */
  datatype Actor = User(user: string) | Stored(id: nat)

  /** A request under way: who makes it, as loaded, and for an edit the key to change, as loaded. */
  datatype Request =
    | Entered(actor: Actor, auth: Auth)
    | Editing(actor: Actor, auth: Auth, id: nat, loaded: Key)

  /** The stored keys, the identifiers ever given to a key, and the requests under way. */
  datatype System = System(keys: Keys, used: set<nat>, requests: map<nat, Request>)

  datatype Event =
    | Enter(request: nat, actor: Actor)
    | Load(request: nat, id: nat)
    | Create(request: nat, id: nat, scopes: Option<seq<string>>, mailboxes: Option<seq<string>>, context: Context)
    | Edit(request: nat, patch: Patch, context: Context)
    | Revoke(request: nat, id: nat)

  function AuthOf(keys: Keys, actor: Actor): Option<Auth> {
    match actor
    case User(user) => Some(Session(user))
    case Stored(id) => if id in keys then Some(ByKey(keys[id])) else None
  }

  // ---------------------------------------------------------------- steps

  /** The grant that an edit lets through, guarded on what the request loaded. */
  function Guarded(s: System, e: Event): Option<Key> {
    if e.Edit? && e.request in s.requests && s.requests[e.request].Editing? then
      var request := s.requests[e.request];
      var r := EditedKey(request.auth, request.loaded, e.patch, e.context);
      if r.Success? then Some(r.value) else None
    else None
  }

  /** The key that an event creates; a new key takes an identifier that no key ever had. */
  function Created(s: System, e: Event): Option<Key> {
    if e.Create? && e.request in s.requests && e.id !in s.used then
      var r := CreatedKey(s.requests[e.request].auth, e.scopes, e.mailboxes, e.context);
      if r.Success? then Some(r.value) else None
    else None
  }

  /** The identifier and the row that an event writes. An edit that changes nothing of what it loaded, or whose row is
      gone, writes nothing. */
  function Written(s: System, e: Event): Option<(nat, Key)> {
    if Created(s, e).Some? then Some((e.id, Created(s, e).value))
    else if Guarded(s, e).Some? then
      var request := s.requests[e.request];
      if request.id in s.keys && Guarded(s, e).value != request.loaded then
        Some((request.id, Merged(s.keys[request.id], request.loaded, Guarded(s, e).value)))
      else None
    else None
  }

  function AfterEnter(s: System, r: nat, actor: Actor): System {
    match AuthOf(s.keys, actor)
    case Some(auth) => s.(requests := s.requests[r := Entered(actor, auth)])
    case None => s.(requests := s.requests - {r})
  }

  /** A key that edits itself is not loaded again. */
  function AfterLoad(s: System, r: nat, id: nat): System {
    if r !in s.requests || !s.requests[r].auth.HasScope(APIKEY_MANAGE) || id !in s.keys ||
       s.keys[id].user != s.requests[r].auth.User() then
      s.(requests := s.requests - {r})
    else
      var actor, auth := s.requests[r].actor, s.requests[r].auth;
      s.(requests := s.requests[r := Editing(actor, auth, id, if actor == Stored(id) && auth.ByKey? then auth.key
                                                             else s.keys[id])])
  }

  function AfterRevoke(s: System, r: nat, id: nat): System {
    if r in s.requests && s.requests[r].auth.HasScope(APIKEY_MANAGE) && id in s.keys &&
       s.keys[id].user == s.requests[r].auth.User() then
      s.(keys := s.keys - {id}, requests := s.requests - {r})
    else s.(requests := s.requests - {r})
  }

  function AfterWrite(s: System, e: Event): System {
    var done := s.(requests := s.requests - {e.request});
    match Written(s, e)
    case Some((id, row)) => done.(keys := s.keys[id := row], used := s.used + {id})
    case None => done
  }

  function Step(s: System, e: Event): System {
    match e
    case Enter(r, actor) => AfterEnter(s, r, actor)
    case Load(r, id) => AfterLoad(s, r, id)
    case Revoke(r, id) => AfterRevoke(s, r, id)
    case _ => AfterWrite(s, e)
  }

  function Run(s: System, events: seq<Event>): System
    decreases |events|
  {
    if events == [] then s else Step(Run(s, events[..|events| - 1]), events[|events| - 1])
  }

  // ---------------------------------------------------------------- what a commit leaves

  /** The part of the row that an edit does not write is no broader than who makes the request. */
  predicate UnwrittenFits(auth: Auth, stored: Key, loaded: Key, edited: Key) {
    var row := Merged(stored, loaded, edited);
    || row.scopes == []
    || (&& (edited.scopes != loaded.scopes || IsSubset(stored.scopes, auth.Scopes()))
        && (edited.allowed != loaded.allowed || MailboxesWithin(ByKey(stored).AllowedMailboxes(), auth)))
  }

  lemma GuardedFits(auth: Auth, loaded: Key, patch: Patch, context: Context)
    requires EditedKey(auth, loaded, patch, context).Success? && loaded.allowed != Some({})
    ensures var edited := EditedKey(auth, loaded, patch, context).value;
            && edited.user == loaded.user == auth.User() && edited.allowed != Some({})
            && IsSubset(edited.scopes, auth.Scopes()) && MailboxesWithin(ByKey(edited).AllowedMailboxes(), auth)
  {
    var edited := EditedKey(auth, loaded, patch, context).value;
    EditedWithin(auth, loaded, patch, context);
    if auth.ByKey? && auth.AllowedMailboxes().Some? {
      LowerAgain(auth.AllowedMailboxes().value, auth.key.allowed.value);
      LoweredSubset(edited.allowed.value, auth.AllowedMailboxes().value);
    }
  }

  /** The row that an edit leaves is within who makes the request just when what it does not write of the stored row
      fits: the guard has seen the rest. */
  lemma CommitWithinIff(auth: Auth, stored: Key, loaded: Key, patch: Patch, context: Context)
    requires EditedKey(auth, loaded, patch, context).Success? && loaded.allowed != Some({})
    requires stored.user == auth.User()
    ensures var edited := EditedKey(auth, loaded, patch, context).value;
            Within(ByKey(Merged(stored, loaded, edited)), auth) <==> UnwrittenFits(auth, stored, loaded, edited)
  {
    var edited := EditedKey(auth, loaded, patch, context).value;
    GuardedFits(auth, loaded, patch, context);
    WithinIff(Merged(stored, loaded, edited), auth);
  }

  // ---------------------------------------------------------------- the invariant of a run

  predicate NoEmptyList(auth: Auth) {
    auth.ByKey? ==> auth.key.allowed != Some({})
  }

  /** What requests under way loaded has no empty allow-list, and the key to change is the caller's user's. */
  ghost predicate RequestSound(s: System, request: Request) {
    && NoEmptyList(request.auth)
    && (request.Editing? ==>
          && request.loaded.allowed != Some({}) && request.loaded.user == request.auth.User() && request.id in s.used
          && (request.id in s.keys ==> s.keys[request.id].user == request.loaded.user))
  }

  ghost predicate Sound(s: System) {
    && s.keys.Keys <= s.used && NoEmptyLists(s.keys)
    && forall r <- s.requests :: RequestSound(s, s.requests[r])
  }

  /** No stored allow-list is empty. */
  predicate NoEmptyLists(keys: Keys) {
    forall id <- keys :: keys[id].allowed != Some({})
  }

  ghost predicate Fresh(s: System) {
    s.keys.Keys <= s.used && NoEmptyLists(s.keys) && s.requests == map[]
  }

  /** What an event writes has no empty list, and keeps the user of a row that was there. */
  lemma WrittenSound(s: System, e: Event)
    requires Sound(s) && Written(s, e).Some?
    ensures var (id, row) := Written(s, e).value;
            && row.allowed != Some({}) && row.user == s.requests[e.request].auth.User()
            && (id in s.keys ==> s.keys[id].user == row.user) && (id !in s.keys ==> id !in s.used)
  {
    var request := s.requests[e.request];
    assert RequestSound(s, request);
    match e
    case Create(_, _, scopes, mailboxes, context) => CreatedWithin(request.auth, scopes, mailboxes, context);
    case Edit(_, patch, context) => GuardedFits(request.auth, request.loaded, patch, context);
  }

  lemma EnterKeepsSound(s: System, r: nat, actor: Actor)
    requires Sound(s)
    ensures Sound(AfterEnter(s, r, actor))
  {
    assert forall other <- s.requests :: RequestSound(s, s.requests[other]);
  }

  lemma LoadKeepsSound(s: System, r: nat, id: nat)
    requires Sound(s)
    ensures Sound(AfterLoad(s, r, id))
  {
    assert forall other <- s.requests :: RequestSound(s, s.requests[other]);
  }

  lemma RevokeKeepsSound(s: System, r: nat, id: nat)
    requires Sound(s)
    ensures Sound(AfterRevoke(s, r, id))
  {
    assert forall other <- s.requests :: RequestSound(s, s.requests[other]);
  }

  lemma WriteKeepsSound(s: System, e: Event)
    requires Sound(s)
    ensures Sound(AfterWrite(s, e))
  {
    assert forall other <- s.requests :: RequestSound(s, s.requests[other]);
    if Written(s, e).Some? {
      WrittenSound(s, e);
    }
  }

  lemma StepKeepsSound(s: System, e: Event)
    requires Sound(s)
    ensures Sound(Step(s, e))
  {
    match e
    case Enter(r, actor) => EnterKeepsSound(s, r, actor);
    case Load(r, id) => LoadKeepsSound(s, r, id);
    case Revoke(r, id) => RevokeKeepsSound(s, r, id);
    case _ => WriteKeepsSound(s, e);
  }

  /** No run stores an empty allow-list, however requests overlap. */
  lemma {:induction false} RunKeepsLists(s: System, events: seq<Event>)
    requires Fresh(s)
    ensures Sound(Run(s, events))
    decreases |events|
  {
    if events != [] {
      RunKeepsLists(s, events[..|events| - 1]);
      StepKeepsSound(Run(s, events[..|events| - 1]), events[|events| - 1]);
    }
  }

  // ---------------------------------------------------------------- authority within the caller's

  /** An edit that writes finds a row whose other part fits who makes the request. */
  predicate Fits(s: System, e: Event) {
    Guarded(s, e).Some? && Written(s, e).Some? ==>
      var request := s.requests[e.request];
      UnwrittenFits(request.auth, s.keys[request.id], request.loaded, Guarded(s, e).value)
  }

  /** What an event writes is within who makes the request, as loaded, just when it fits. */
  lemma WrittenWithinIff(s: System, e: Event)
    requires Sound(s) && Written(s, e).Some?
    ensures Within(ByKey(Written(s, e).value.1), s.requests[e.request].auth) <==> Fits(s, e)
  {
    var request := s.requests[e.request];
    assert RequestSound(s, request);
    match e
    case Create(_, _, scopes, mailboxes, context) => CreatedWithin(request.auth, scopes, mailboxes, context);
    case Edit(_, patch, context) =>
      CommitWithinIff(request.auth, s.keys[request.id], request.loaded, patch, context);
  }

  predicate AllFit(s: System, events: seq<Event>) {
    forall k | 0 <= k < |events| :: Fits(Run(s, events[..k]), events[k])
  }

  /** Nothing an event of the run writes is broader than who makes the request. */
  ghost predicate AllWithin(s: System, events: seq<Event>) {
    forall k | 0 <= k < |events| :: WithinCaller(Run(s, events[..k]), events[k])
  }

  ghost predicate WithinCaller(s: System, e: Event) {
    Written(s, e).Some? ==> e.request in s.requests && Within(ByKey(Written(s, e).value.1), s.requests[e.request].auth)
  }

  /** Over any run, no request leaves a key broader than who makes it just when every edit fits the row it finds. */
  lemma NoEscalationIff(s: System, events: seq<Event>)
    requires Fresh(s)
    ensures AllWithin(s, events) <==> AllFit(s, events)
  {
    forall k | 0 <= k < |events|
      ensures WithinCaller(Run(s, events[..k]), events[k]) <==> Fits(Run(s, events[..k]), events[k])
    {
      RunKeepsLists(s, events[..k]);
      if Written(Run(s, events[..k]), events[k]).Some? {
        WrittenWithinIff(Run(s, events[..k]), events[k]);
      }
    }
  }

  /** The keys that descend from `root`, and the requests made with one of them. */
  datatype Family = Family(ids: set<nat>, requests: set<nat>)

  /** A key descends from `root` if a request made with a descendant wrote it last. */
  function Descent(s: System, family: Family, e: Event): Family {
    match e
    case Enter(r, actor) =>
      if actor.Stored? && actor.id in family.ids then family.(requests := family.requests + {r})
      else family.(requests := family.requests - {r})
    case Load(_, _) => family
    case Revoke(_, _) => family
    case _ =>
      if Written(s, e).None? then family
      else if e.request in family.requests then family.(ids := family.ids + {Written(s, e).value.0})
      else family.(ids := family.ids - {Written(s, e).value.0})
  }

  function Derived(s: System, root: nat, events: seq<Event>): Family
    decreases |events|
  {
    if events == [] then Family({root}, {})
    else
      var earlier := events[..|events| - 1];
      Descent(Run(s, earlier), Derived(s, root, earlier), events[|events| - 1])
  }

  /** The keys of the family, and the requests made with them, may do only what `top` could. */
  ghost predicate FamilyWithin(s: System, family: Family, top: Auth) {
    && (forall id <- family.ids :: id in s.keys ==> Within(ByKey(s.keys[id]), top))
    && (forall r <- family.requests :: r in s.requests ==> Within(s.requests[r].auth, top))
  }

  /** Every edit by a descendant of `root` fits the row it finds. */
  predicate DescendantsFit(s: System, root: nat, events: seq<Event>) {
    forall k | 0 <= k < |events| && events[k].request in Derived(s, root, events[..k]).requests ::
      Fits(Run(s, events[..k]), events[k])
  }

  lemma StepKeepsFamily(s: System, family: Family, e: Event, top: Auth)
    requires Sound(s) && FamilyWithin(s, family, top)
    requires e.request in family.requests ==> Fits(s, e)
    ensures FamilyWithin(Step(s, e), Descent(s, family, e), top)
  {
    if (e.Create? || e.Edit?) && Written(s, e).Some? && e.request in family.requests {
      WrittenWithinIff(s, e);
      WithinAgain(ByKey(Written(s, e).value.1), s.requests[e.request].auth, top);
    }
  }

  lemma WithinAgain(a: Auth, b: Auth, c: Auth)
    requires Within(a, b) && Within(b, c)
    ensures Within(a, c)
  {
  }

  lemma EarlierFit(s: System, root: nat, events: seq<Event>)
    requires events != [] && DescendantsFit(s, root, events)
    ensures DescendantsFit(s, root, events[..|events| - 1])
    ensures events[|events| - 1].request in Derived(s, root, events[..|events| - 1]).requests ==>
              Fits(Run(s, events[..|events| - 1]), events[|events| - 1])
  {
    var earlier := events[..|events| - 1];
    assert forall k | 0 <= k < |earlier| :: earlier[..k] == events[..k];
  }

  /** Whatever sessions and other keys do meanwhile, every key that descends from `root`, and every request made with
      one, may do only what `root` could at the start, if the descendants' own edits fit the rows they find. */
  lemma {:induction false} DerivedWithinRoot(s: System, root: nat, events: seq<Event>)
    requires Fresh(s) && root in s.keys && DescendantsFit(s, root, events)
    ensures FamilyWithin(Run(s, events), Derived(s, root, events), ByKey(s.keys[root]))
    decreases |events|
  {
    if events != [] {
      var earlier, e := events[..|events| - 1], events[|events| - 1];
      EarlierFit(s, root, events);
      DerivedWithinRoot(s, root, earlier);
      RunKeepsLists(s, earlier);
      StepKeepsFamily(Run(s, earlier), Derived(s, root, earlier), e, ByKey(s.keys[root]));
    }
  }

  /** Some key of the start could do all that this principal may. */
  ghost predicate Covered(auth: Auth, keys: Keys) {
    exists origin :: origin in keys && Within(auth, ByKey(keys[origin]))
  }

  ghost predicate AllCovered(s: System, keys: Keys) {
    && (forall id <- s.keys :: Covered(ByKey(s.keys[id]), keys))
    && (forall r <- s.requests :: Covered(s.requests[r].auth, keys))
  }

  lemma CoveredAgain(a: Auth, b: Auth, keys: Keys)
    requires Within(a, b) && Covered(b, keys)
    ensures Covered(a, keys)
  {
    var origin :| origin in keys && Within(b, ByKey(keys[origin]));
    WithinAgain(a, b, ByKey(keys[origin]));
  }

  lemma StepKeepsCovered(s: System, e: Event, keys: Keys)
    requires Sound(s) && AllCovered(s, keys) && Fits(s, e) && (e.Enter? ==> e.actor.Stored?)
    ensures AllCovered(Step(s, e), keys)
  {
    if (e.Create? || e.Edit?) && Written(s, e).Some? {
      WrittenWithinIff(s, e);
      CoveredAgain(ByKey(Written(s, e).value.1), s.requests[e.request].auth, keys);
    }
  }

  /** When only keys act and every edit fits the row it finds, no key ever may do more than some key of the same user
      could at the start. */
  lemma {:induction false} AuthorityNeverGrows(s: System, events: seq<Event>)
    requires Fresh(s) && AllFit(s, events) && forall e <- events :: e.Enter? ==> e.actor.Stored?
    ensures AllCovered(Run(s, events), s.keys)
    decreases |events|
  {
    if events == [] {
      forall id <- s.keys
        ensures Covered(ByKey(s.keys[id]), s.keys)
      {
        assert Within(ByKey(s.keys[id]), ByKey(s.keys[id]));
      }
    } else {
      var earlier := events[..|events| - 1];
      assert forall k | 0 <= k < |earlier| :: earlier[..k] == events[..k] && earlier[k] == events[k];
      assert forall e <- earlier :: e in events;
      assert events[|events| - 1] in events;
      AuthorityNeverGrows(s, earlier);
      RunKeepsLists(s, earlier);
      StepKeepsCovered(Run(s, earlier), events[|events| - 1], s.keys);
    }
  }

  // ---------------------------------------------------------------- edits that nothing disturbs

  /** The row that an edit finds is the key as it was loaded. */
  predicate Undisturbed(s: System, e: Event) {
    Guarded(s, e).Some? && s.requests[e.request].id in s.keys ==>
      s.keys[s.requests[e.request].id] == s.requests[e.request].loaded
  }

  lemma UndisturbedFits(s: System, e: Event)
    requires Sound(s) && Undisturbed(s, e)
    ensures Fits(s, e)
  {
    if Guarded(s, e).Some? && Written(s, e).Some? {
      var request := s.requests[e.request];
      assert RequestSound(s, request);
      GuardedFits(request.auth, request.loaded, e.patch, e.context);
    }
  }

  predicate AllUndisturbed(s: System, events: seq<Event>) {
    forall k | 0 <= k < |events| :: Undisturbed(Run(s, events[..k]), events[k])
  }

  /** Where no edit finds its key changed since it was loaded, every edit fits. */
  lemma AllUndisturbedFit(s: System, events: seq<Event>)
    requires Fresh(s) && AllUndisturbed(s, events)
    ensures AllFit(s, events)
  {
    forall k | 0 <= k < |events|
      ensures Fits(Run(s, events[..k]), events[k])
    {
      RunKeepsLists(s, events[..k]);
      UndisturbedFits(Run(s, events[..k]), events[k]);
    }
  }

  /** So then authority neither leaves a family nor grows. */
  lemma UndisturbedNeverGrows(s: System, events: seq<Event>)
    requires Fresh(s) && AllUndisturbed(s, events)
    ensures AllWithin(s, events)
    ensures forall root <- s.keys :: FamilyWithin(Run(s, events), Derived(s, root, events), ByKey(s.keys[root]))
    ensures (forall e <- events :: e.Enter? ==> e.actor.Stored?) ==> AllCovered(Run(s, events), s.keys)
  {
    AllUndisturbedFit(s, events);
    NoEscalationIff(s, events);
    forall root <- s.keys
      ensures FamilyWithin(Run(s, events), Derived(s, root, events), ByKey(s.keys[root]))
    {
      DerivedWithinRoot(s, root, events);
    }
    if forall e <- events :: e.Enter? ==> e.actor.Stored? {
      AuthorityNeverGrows(s, events);
    }
  }

  /** The event neither continues request `r` nor changes the stored key `id`. */
  predicate Leaves(s: System, e: Event, r: nat, id: nat) {
    && e.request != r && !(e.Revoke? && e.id == id)
    && (Written(s, e).Some? ==> Written(s, e).value.0 != id)
  }

  ghost predicate LeftAloneBy(s: System, events: seq<Event>, r: nat, id: nat) {
    forall k | 0 <= k < |events| :: Leaves(Run(s, events[..k]), events[k], r, id)
  }

  lemma StepLeaves(s: System, e: Event, r: nat, id: nat)
    requires Leaves(s, e, r, id) && id in s.keys && r in s.requests
    ensures id in Step(s, e).keys && Step(s, e).keys[id] == s.keys[id]
    ensures r in Step(s, e).requests && Step(s, e).requests[r] == s.requests[r]
  {
  }

  lemma {:induction false} RunLeaves(s: System, events: seq<Event>, r: nat, id: nat)
    requires LeftAloneBy(s, events, r, id) && id in s.keys && r in s.requests
    ensures var now := Run(s, events);
            && id in now.keys && now.keys[id] == s.keys[id]
            && r in now.requests && now.requests[r] == s.requests[r]
    decreases |events|
  {
    if events != [] {
      var earlier, e := events[..|events| - 1], events[|events| - 1];
      assert forall k | 0 <= k < |earlier| :: earlier[..k] == events[..k] && earlier[k] == events[k];
      RunLeaves(s, earlier, r, id);
      StepLeaves(Run(s, earlier), e, r, id);
    }
  }

  /** An edit is undisturbed if nothing changes its key between its load and its commit. */
  lemma AloneUndisturbed(s: System, r: nat, id: nat, between: seq<Event>, patch: Patch, context: Context)
    requires r in Step(s, Load(r, id)).requests && s.requests[r].actor != Stored(id)
    requires LeftAloneBy(Step(s, Load(r, id)), between, r, id)
    ensures Undisturbed(Run(Step(s, Load(r, id)), between), Edit(r, patch, context))
  {
    RunLeaves(Step(s, Load(r, id)), between, r, id);
  }

  /** A key that edits itself is loaded when its request enters, so for that edit nothing may change it from then on. */
  lemma OwnEditUndisturbed(s: System, r: nat, id: nat, waiting: seq<Event>, between: seq<Event>,
                           patch: Patch, context: Context)
    requires id in s.keys && LeftAloneBy(Step(s, Enter(r, Stored(id))), waiting, r, id)
    requires var loaded := Step(Run(Step(s, Enter(r, Stored(id))), waiting), Load(r, id));
             r in loaded.requests && LeftAloneBy(loaded, between, r, id)
    ensures var loaded := Step(Run(Step(s, Enter(r, Stored(id))), waiting), Load(r, id));
            Undisturbed(Run(loaded, between), Edit(r, patch, context))
  {
    RunLeaves(Step(s, Enter(r, Stored(id))), waiting, r, id);
    RunLeaves(Step(Run(Step(s, Enter(r, Stored(id))), waiting), Load(r, id)), between, r, id);
  }

  /** A request that nothing interrupts stores what the guard let through, as the key table's method does. */
  lemma UninterruptedEdit(s: System, r: nat, actor: Actor, id: nat, patch: Patch, context: Context)
    requires id in s.keys && AuthOf(s.keys, actor).Some?
    ensures var edited := EditedKey(AuthOf(s.keys, actor).value, s.keys[id], patch, context);
            Step(Step(Step(s, Enter(r, actor)), Load(r, id)), Edit(r, patch, context)).keys
            == if edited.Success? then s.keys[id := edited.value] else s.keys
  {
    var auth := AuthOf(s.keys, actor).value;
    var loaded := Step(Step(s, Enter(r, actor)), Load(r, id));
    if auth.HasScope(APIKEY_MANAGE) && s.keys[id].user == auth.User() {
      assert loaded.requests[r] == Editing(actor, auth, id, s.keys[id]);
      if EditedKey(auth, s.keys[id], patch, context).Success? {
        EditedUser(auth, s.keys[id], patch, context);
      }
    }
  }

  lemma EditedUser(auth: Auth, key: Key, patch: Patch, context: Context)
    requires EditedKey(auth, key, patch, context).Success?
    ensures var edited := EditedKey(auth, key, patch, context).value;
            edited.user == key.user && Merged(key, key, edited) == edited
  {
  }

  // ---------------------------------------------------------------- edits that overlap

  /** Two keys load a third one before either commits its edit of it. */
  function Overlapping(first: Patch, second: Patch, context: Context): seq<Event> {
    [Enter(0, Stored(0))] + [Enter(1, Stored(1))] + [Load(0, 2)] + [Load(1, 2)] +
    [Edit(0, first, context)] + [Edit(1, second, context)]
  }

  lemma RunOneMore(s: System, events: seq<Event>, e: Event)
    ensures Run(s, events + [e]) == Step(Run(s, events), e)
  {
    assert (events + [e])[..|events|] == events;
  }

  lemma OverlappingSteps(s: System, first: Patch, second: Patch, context: Context)
    ensures Run(s, Overlapping(first, second, context))
         == Step(Step(BothLoaded(s), Edit(0, first, context)), Edit(1, second, context))
  {
    var a, b := [Enter(0, Stored(0))], [Enter(1, Stored(1))];
    RunOneMore(s, [], Enter(0, Stored(0)));
    assert [] + a == a;
    RunOneMore(s, a, Enter(1, Stored(1)));
    RunOneMore(s, a + b, Load(0, 2));
    RunOneMore(s, a + b + [Load(0, 2)], Load(1, 2));
    RunOneMore(s, a + b + [Load(0, 2)] + [Load(1, 2)], Edit(0, first, context));
    RunOneMore(s, a + b + [Load(0, 2)] + [Load(1, 2)] + [Edit(0, first, context)], Edit(1, second, context));
  }

  function BothLoaded(s: System): System {
    Step(Step(Step(Step(s, Enter(0, Stored(0))), Enter(1, Stored(1))), Load(0, 2)), Load(1, 2))
  }

  /** Three keys of one user, the first two of which may manage keys. */
  predicate Managed(s: System) {
    && s.keys.Keys == s.used == {0, 1, 2} && s.keys[0].user == s.keys[1].user == s.keys[2].user
    && ByKey(s.keys[0]).HasScope(APIKEY_MANAGE) && ByKey(s.keys[1]).HasScope(APIKEY_MANAGE)
  }

  lemma BothLoadedState(s: System)
    requires Managed(s) && s.requests == map[]
    ensures BothLoaded(s) == s.(requests := map[0 := Editing(Stored(0), ByKey(s.keys[0]), 2, s.keys[2]),
                                                1 := Editing(Stored(1), ByKey(s.keys[1]), 2, s.keys[2])])
  {
  }

  lemma EditWrites(s: System, r: nat, patch: Patch, context: Context, edited: Key)
    requires r in s.requests && s.requests[r].Editing? && s.requests[r].id in s.keys
    requires EditedKey(s.requests[r].auth, s.requests[r].loaded, patch, context) == Success(edited)
    ensures var id, after := s.requests[r].id, Step(s, Edit(r, patch, context));
            && after.keys == s.keys[id := Merged(s.keys[id], s.requests[r].loaded, edited)]
            && after.requests == s.requests - {r}
  {
    var id := s.requests[r].id;
    if edited == s.requests[r].loaded {
      assert s.keys[id := s.keys[id]] == s.keys;
    }
  }

  /** Both edits pass on the key as it was loaded, and the row has what each of them wrote. */
  lemma OverlappingWrites(s: System, first: Patch, second: Patch, context: Context, one: Key, two: Key)
    requires Managed(s) && s.requests == map[]
    requires EditedKey(ByKey(s.keys[0]), s.keys[2], first, context) == Success(one)
    requires EditedKey(ByKey(s.keys[1]), s.keys[2], second, context) == Success(two)
    ensures Run(s, Overlapping(first, second, context)).keys
         == s.keys[2 := Merged(Merged(s.keys[2], s.keys[2], one), s.keys[2], two)]
  {
    OverlappingSteps(s, first, second, context);
    BothLoadedState(s);
    TwoEdits(BothLoaded(s), 2, s.keys[2], first, second, context, one, two);
  }

  lemma TwoEdits(s: System, id: nat, loaded: Key, first: Patch, second: Patch, context: Context, one: Key, two: Key)
    requires 0 in s.requests && s.requests[0].Editing? && s.requests[0].id == id && s.requests[0].loaded == loaded
    requires 1 in s.requests && s.requests[1].Editing? && s.requests[1].id == id && s.requests[1].loaded == loaded
    requires EditedKey(s.requests[0].auth, loaded, first, context) == Success(one)
    requires EditedKey(s.requests[1].auth, loaded, second, context) == Success(two)
    requires id in s.keys
    ensures Step(Step(s, Edit(0, first, context)), Edit(1, second, context)).keys
         == s.keys[id := Merged(Merged(s.keys[id], loaded, one), loaded, two)]
  {
    EditWrites(s, 0, first, context, one);
    EditWrites(Step(s, Edit(0, first, context)), 1, second, context, two);
  }

  /** The row they leave may do what none of the keys could. */
  lemma EscapeOf(s: System, first: Patch, second: Patch, context: Context, one: Key, two: Key,
                 scope: string, address: string)
    requires Managed(s) && s.requests == map[]
    requires EditedKey(ByKey(s.keys[0]), s.keys[2], first, context) == Success(one)
    requires EditedKey(ByKey(s.keys[1]), s.keys[2], second, context) == Success(two)
    requires ByKey(Merged(Merged(s.keys[2], s.keys[2], one), s.keys[2], two)).Holds(scope, address)
    requires forall id <- s.keys :: !ByKey(s.keys[id]).Holds(scope, address)
    ensures var now := Run(s, Overlapping(first, second, context));
            2 in now.keys && ByKey(now.keys[2]).Holds(scope, address) && !AllCovered(now, s.keys)
  {
    OverlappingWrites(s, first, second, context, one, two);
    var row := Merged(Merged(s.keys[2], s.keys[2], one), s.keys[2], two);
    assert !Covered(ByKey(row), s.keys);
  }

  const READ: string := "email:read"
  const SEND: string := "email:send"
  const X: string := "x@d"
  const Y: string := "y@d"

  const WIDER_MAILBOXES: Patch := Patch(None, Some(Some([X, Y])))
  const WIDER_SCOPES: Patch := Patch(Some(Some([READ, SEND])), None)

  function Scene(user: string): System {
    System(map[0 := Key(user, [APIKEY_MANAGE, READ], Some({X, Y})),
               1 := Key(user, [APIKEY_MANAGE, READ, SEND], Some({X})),
               2 := Key(user, [READ], Some({X}))], {0, 1, 2}, map[])
  }

  function Surroundings(user: string): Context {
    Context([APIKEY_MANAGE, READ, SEND], map[user := {X, Y}])
  }

  lemma Addresses()
    ensures Lower(X) == X && Lower(Y) == Y && Strip(X) == X && Strip(Y) == Y && X != Y && X != "" && Y != ""
  {
  }

  lemma ScopeNames()
    ensures READ != SEND && READ != APIKEY_MANAGE && SEND != APIKEY_MANAGE
    ensures WILDCARD !in {READ, SEND, APIKEY_MANAGE}
  {
  }

  lemma MailboxesWidened(user: string)
    ensures EditedKey(ByKey(Scene(user).keys[0]), Scene(user).keys[2], WIDER_MAILBOXES, Surroundings(user))
         == Success(Key(user, [READ], Some({X, Y})))
  {
    Addresses();
    ScopeNames();
    assert ResolveMailboxes(Some([X, Y]), {X, Y}) == Success(Some({X, Y})) by {
      assert (set address <- [X, Y] | Strip(address) != "" :: Lower(Strip(address))) == {X, Y};
      assert (set address <- {X, Y} :: Lower(address)) == {X, Y};
    }
    assert (set m <- {X, Y} :: Lower(m)) == {X, Y};
  }

  lemma ScopesWidened(user: string)
    ensures EditedKey(ByKey(Scene(user).keys[1]), Scene(user).keys[2], WIDER_SCOPES, Surroundings(user))
         == Success(Key(user, [READ, SEND], Some({X})))
  {
    Addresses();
    ScopeNames();
    var catalogue := [APIKEY_MANAGE, READ, SEND];
    assert Requested([SEND], [READ, SEND]) == [SEND];
    assert catalogue[1..] == [READ, SEND] && [READ, SEND][1..] == [SEND] && [SEND][1..] == [];
    assert Requested(catalogue, [READ, SEND]) == [READ, SEND];
    assert Unknown(catalogue, [READ, SEND]) == {};
    assert (set m <- {X} :: Lower(m)) == {X};
  }

  /** One key widens the third key's mailboxes, another its scopes, each within what it may grant: the row they leave
      may send from a mailbox that none of the keys could send from. */
  lemma OverlappingEditsEscape(user: string)
    ensures var s := Scene(user);
            var now := Run(s, Overlapping(WIDER_MAILBOXES, WIDER_SCOPES, Surroundings(user)));
            && Fresh(s) && 2 in now.keys && ByKey(now.keys[2]).Holds(SEND, Y)
            && (forall id <- s.keys :: !ByKey(s.keys[id]).Holds(SEND, Y))
            && !AllCovered(now, s.keys)
  {
    var s := Scene(user);
    MailboxesWidened(user);
    ScopesWidened(user);
    Mixed(user);
    NobodySendsFromY(user);
    Staged(user);
    EscapeOf(s, WIDER_MAILBOXES, WIDER_SCOPES, Surroundings(user), Key(user, [READ], Some({X, Y})),
             Key(user, [READ, SEND], Some({X})), SEND, Y);
  }

  lemma Staged(user: string)
    ensures Managed(Scene(user)) && Fresh(Scene(user))
  {
  }

  lemma Mixed(user: string)
    ensures var loaded := Key(user, [READ], Some({X}));
            var first := Merged(loaded, loaded, Key(user, [READ], Some({X, Y})));
            Merged(first, loaded, Key(user, [READ, SEND], Some({X}))) == Key(user, [READ, SEND], Some({X, Y}))
    ensures ByKey(Key(user, [READ, SEND], Some({X, Y}))).Holds(SEND, Y)
  {
    Addresses();
    ScopeNames();
    assert Y in {X, Y} && Y !in {X};
    assert |[READ, SEND]| != |[READ]|;
    assert [READ, SEND][1] == SEND;
    assert Lower(Y) in (set m <- {X, Y} :: Lower(m));
  }

  lemma NobodySendsFromY(user: string)
    ensures forall id <- Scene(user).keys :: !ByKey(Scene(user).keys[id]).Holds(SEND, Y)
  {
    Addresses();
    ScopeNames();
    assert (set m <- {X} :: Lower(m)) == {X};
  }

  // ---------------------------------------------------------------- single requests

  /** A request that nothing interrupts stores the key it asked for under a new identifier. */
  lemma UninterruptedCreate(s: System, r: nat, actor: Actor, id: nat, scopes: Option<seq<string>>,
                            mailboxes: Option<seq<string>>, context: Context)
    requires AuthOf(s.keys, actor).Some? && id !in s.used
    ensures var made := CreatedKey(AuthOf(s.keys, actor).value, scopes, mailboxes, context);
            Step(Step(s, Enter(r, actor)), Create(r, id, scopes, mailboxes, context)).keys
            == if made.Success? then s.keys[id := made.value] else s.keys
  {
  }

  /** A key is revoked by whoever may manage keys of its user, and then is gone for every request that enters later. */
  lemma RevokedKeyEntersNoMore(s: System, r: nat, actor: Actor, id: nat, other: nat)
    requires AuthOf(s.keys, actor).Some? && id in s.keys
    ensures var auth, after := AuthOf(s.keys, actor).value, Step(Step(s, Enter(r, actor)), Revoke(r, id));
            if auth.HasScope(APIKEY_MANAGE) && s.keys[id].user == auth.User() then
              after.keys == s.keys - {id} && other !in Step(after, Enter(other, Stored(id))).requests
            else after.keys == s.keys
  {
  }

  /** An edit goes by the key as it is stored when it is loaded; a key that edits itself goes by the copy of it that its
      request entered with, whatever was stored since. */
  lemma LoadMeans(s: System, r: nat, id: nat, own: bool, key: Key)
    requires r in s.requests && s.requests[r] == Entered(Stored(if own then id else id + 1), ByKey(key))
    requires ByKey(key).HasScope(APIKEY_MANAGE) && id in s.keys && s.keys[id].user == key.user
    ensures var after := Step(s, Load(r, id));
            && r in after.requests && after.requests[r].Editing? && after.requests[r].id == id
            && after.requests[r].auth == ByKey(key) && after.keys == s.keys
            && after.requests[r].loaded == (if own then key else s.keys[id])
  {
  }
}
