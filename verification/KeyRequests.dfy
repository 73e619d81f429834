/** What a request to create or edit a key asks for, when it is granted, and that the key then may do just that. */
module KeyRequests {
  import opened Wrappers
  import opened Text
  import opened KeyDelegation

  // ---------------------------------------------------------------- mailboxes asked for

  /** The request names this address, in any case and with any outer space; blank entries name none. */
  ghost predicate Names(requested: Option<seq<string>>, address: string) {
    requested.Some? && exists raw :: raw in requested.value && Strip(raw) != "" && Lower(Strip(raw)) == Lower(address)
  }

  ghost predicate NamesAny(requested: Option<seq<string>>) {
    requested.Some? && exists raw :: raw in requested.value && Strip(raw) != ""
  }

  ghost predicate OwnedBy(owned: set<string>, address: string) {
    exists own :: own in owned && Lower(own) == Lower(address)
  }

  ghost predicate NamesOnlyOwned(requested: Option<seq<string>>, owned: set<string>) {
    forall address :: Names(requested, address) ==> OwnedBy(owned, address)
  }

  function Wanted(requested: seq<string>): set<string> {
    set raw <- requested | Strip(raw) != "" :: Lower(Strip(raw))
  }

  function Mine(owned: set<string>): set<string> {
    set address <- owned :: Lower(address)
  }

  /** The lower-case spelling of an address that the request names. */
  ghost predicate LowerNamed(requested: Option<seq<string>>, m: string) {
    Lower(m) == m && Names(requested, m)
  }

  ghost predicate LowerOwned(owned: set<string>, m: string) {
    Lower(m) == m && OwnedBy(owned, m)
  }

  lemma WantedMember(requested: seq<string>, m: string)
    ensures m in Wanted(requested) <==> LowerNamed(Some(requested), m)
  {
    if m in Wanted(requested) {
      var raw :| raw in requested && Strip(raw) != "" && Lower(Strip(raw)) == m;
      LowerIdempotent(Strip(raw));
    }
  }

  lemma MineMember(owned: set<string>, m: string)
    ensures m in Mine(owned) <==> LowerOwned(owned, m)
  {
    if m in Mine(owned) {
      var address :| address in owned && Lower(address) == m;
      LowerIdempotent(address);
    }
  }

  lemma ResolvedCases(requested: seq<string>, owned: set<string>)
    ensures ResolveMailboxes(Some(requested), owned)
         == if Wanted(requested) == {} then Success(None)
            else if Wanted(requested) - Mine(owned) != {} then Failure(NotYours(Wanted(requested) - Mine(owned)))
            else Success(Some(Wanted(requested)))
  {
  }

  lemma NotMine(requested: seq<string>, owned: set<string>, m: string)
    ensures m in Wanted(requested) - Mine(owned) <==> LowerNamed(Some(requested), m) && !OwnedBy(owned, m)
  {
    WantedMember(requested, m);
    MineMember(owned, m);
  }

  lemma NoneForeign(requested: seq<string>, owned: set<string>)
    ensures Wanted(requested) - Mine(owned) == {} <==> NamesOnlyOwned(Some(requested), owned)
  {
    NamesLowered(requested, owned);
    forall m <- Wanted(requested)
      ensures m in Wanted(requested) - Mine(owned) <==> !OwnedBy(owned, m)
    {
      NotMine(requested, owned, m);
      WantedMember(requested, m);
    }
  }

  /** A request without an address restricts nothing. Otherwise the list holds just the addresses named, lower-cased,
      and is refused exactly if some of them are not the user's, which the refusal reports. */
  lemma ResolvedIff(requested: Option<seq<string>>, owned: set<string>)
    ensures ResolveMailboxes(requested, owned) == Success(None) <==> !NamesAny(requested)
    ensures ResolveMailboxes(requested, owned).Success? <==> NamesOnlyOwned(requested, owned)
    ensures var r := ResolveMailboxes(requested, owned);
            r.Success? && r.value.Some? ==> forall m :: m in r.value.value <==> LowerNamed(requested, m)
    ensures var r := ResolveMailboxes(requested, owned);
            r.Failure? ==>
              && r.error.NotYours?
              && forall m :: m in r.error.invalid <==> LowerNamed(requested, m) && !OwnedBy(owned, m)
  {
    if requested.Some? {
      ResolvedCases(requested.value, owned);
      NoneForeign(requested.value, owned);
      SomeWanted(requested.value);
      forall m
        ensures m in Wanted(requested.value) <==> LowerNamed(requested, m)
        ensures m in Wanted(requested.value) - Mine(owned) <==> LowerNamed(requested, m) && !OwnedBy(owned, m)
      {
        WantedMember(requested.value, m);
        NotMine(requested.value, owned, m);
      }
    }
  }

  lemma SomeWanted(requested: seq<string>)
    ensures Wanted(requested) == {} <==> !NamesAny(Some(requested))
  {
    if raw :| raw in requested && Strip(raw) != "" {
      assert Lower(Strip(raw)) in Wanted(requested);
    }
  }

  /** Whether all named addresses are owned may be asked of the lower-cased ones alone. */
  lemma NamesLowered(requested: seq<string>, owned: set<string>)
    ensures NamesOnlyOwned(Some(requested), owned) <==> forall m <- Wanted(requested) :: OwnedBy(owned, m)
  {
    if forall m <- Wanted(requested) :: OwnedBy(owned, m) {
      forall address | Names(Some(requested), address)
        ensures OwnedBy(owned, address)
      {
        NamesAnyCase(Some(requested), owned, address);
        WantedMember(requested, Lower(address));
      }
    }
    if NamesOnlyOwned(Some(requested), owned) {
      forall m <- Wanted(requested)
        ensures OwnedBy(owned, m)
      {
        WantedMember(requested, m);
      }
    }
  }

  lemma NamesAnyCase(requested: Option<seq<string>>, owned: set<string>, address: string)
    ensures Names(requested, address) <==> LowerNamed(requested, Lower(address))
    ensures OwnedBy(owned, address) <==> OwnedBy(owned, Lower(address))
  {
    LowerIdempotent(address);
  }

  // ---------------------------------------------------------------- what is asked for

  /** The request asks for this scope: it names it or the wildcard, or names nothing. */
  predicate AsksScope(scopes: Option<seq<string>>, scope: string) {
    scopes.None? || scopes.value == [] || WILDCARD in scopes.value || scope in scopes.value
  }

  /** The request asks for this mailbox: it names it, or names none. */
  ghost predicate AsksMailbox(mailboxes: Option<seq<string>>, address: string) {
    !NamesAny(mailboxes) || Names(mailboxes, address)
  }

  ghost predicate Asks(scopes: Option<seq<string>>, mailboxes: Option<seq<string>>, scope: string, address: string) {
    AsksScope(scopes, scope) && AsksMailbox(mailboxes, address)
  }

  predicate AllKnown(scopes: Option<seq<string>>, catalogue: seq<string>) {
    scopes.Some? ==> forall s <- scopes.value :: s in catalogue || s == WILDCARD
  }

  lemma NormalizedScopes(catalogue: seq<string>, scopes: Option<seq<string>>)
    ensures var r := NormalizeScopes(catalogue, scopes);
            && (r.Success? <==> AllKnown(scopes, catalogue))
            && (r.Success? ==> r.value != [] && forall s :: ScopeSatisfied(r.value, s) <==> AsksScope(scopes, s))
  {
    NormalizeMeaning(catalogue, scopes);
  }

  lemma ResolvedAllows(mailboxes: Option<seq<string>>, owned: set<string>, key: Key)
    requires ResolveMailboxes(mailboxes, owned) == Success(key.allowed)
    ensures forall address :: ByKey(key).MailboxAllowed(address) <==> AsksMailbox(mailboxes, address)
    ensures key.allowed != Some({}) && (key.allowed.Some? ==> forall m <- key.allowed.value :: Lower(m) == m)
  {
    ResolvedIff(mailboxes, owned);
    ResolvedNeverEmpty(mailboxes, owned);
    if key.allowed.Some? {
      ListAllows(mailboxes, key);
    }
  }

  lemma ListAllows(mailboxes: Option<seq<string>>, key: Key)
    requires key.allowed.Some? && key.allowed.value != {}
    requires (forall m <- key.allowed.value :: Lower(m) == m)
    requires forall m :: m in key.allowed.value <==> LowerNamed(mailboxes, m)
    ensures forall address :: ByKey(key).MailboxAllowed(address) <==> Names(mailboxes, address)
    ensures NamesAny(mailboxes)
  {
    var some :| some in key.allowed.value;
    assert LowerNamed(mailboxes, some);
    forall address
      ensures ByKey(key).MailboxAllowed(address) <==> Names(mailboxes, address)
    {
      AllowedByList(key, address);
      NamesAnyCase(mailboxes, {}, address);
    }
  }

  lemma AllowedByList(key: Key, address: string)
    requires key.allowed.Some? && key.allowed.value != {} && forall m <- key.allowed.value :: Lower(m) == m
    ensures ByKey(key).MailboxAllowed(address) <==> Lower(address) in key.allowed.value
  {
    LowerFixed(key.allowed.value);
  }

  lemma LowerFixed(allowed: set<string>)
    requires forall m <- allowed :: Lower(m) == m
    ensures (set m <- allowed :: Lower(m)) == allowed
  {
  }

  // ---------------------------------------------------------------- creating

  /** What a request needs before the guard: the caller may manage keys, and what it names exists and is the user's. */
  ghost predicate WellAsked(auth: Auth, scopes: Option<seq<string>>, mailboxes: Option<seq<string>>, context: Context) {
    auth.HasScope(APIKEY_MANAGE) && AllKnown(scopes, context.catalogue) &&
    NamesOnlyOwned(mailboxes, context.Owned(auth.User()))
  }

  lemma CreatedGrant(auth: Auth, scopes: Option<seq<string>>, mailboxes: Option<seq<string>>, context: Context)
    returns (key: Key)
    requires WellAsked(auth, scopes, mailboxes, context)
    ensures CreatedKey(auth, scopes, mailboxes, context)
         == if GrantWithinCaller(auth, key.scopes, key.allowed) then Success(key) else Failure(TooBroad)
    ensures key.user == auth.User() && key.scopes != [] && key.allowed != Some({})
    ensures key.allowed.Some? ==> forall m <- key.allowed.value :: Lower(m) == m
    ensures forall scope, address ::
              ByKey(key).Holds(scope, address) <==> Asks(scopes, mailboxes, scope, address)
  {
    NormalizedScopes(context.catalogue, scopes);
    ResolvedIff(mailboxes, context.Owned(auth.User()));
    var allowed := ResolveMailboxes(mailboxes, context.Owned(auth.User())).value;
    key := Key(auth.User(), NormalizeScopes(context.catalogue, scopes).value, allowed);
    ResolvedAllows(mailboxes, context.Owned(auth.User()), key);
  }

  /** A key is created just when the request is well asked and asks for nothing that the caller may not do itself. */
  lemma CreatedIff(auth: Auth, scopes: Option<seq<string>>, mailboxes: Option<seq<string>>, context: Context)
    ensures CreatedKey(auth, scopes, mailboxes, context).Success? <==>
              && WellAsked(auth, scopes, mailboxes, context)
              && forall scope, address :: Asks(scopes, mailboxes, scope, address) ==> auth.Holds(scope, address)
  {
    if WellAsked(auth, scopes, mailboxes, context) {
      var key := CreatedGrant(auth, scopes, mailboxes, context);
      GuardExact(auth, key.scopes, key.allowed);
      assert Key(auth.User(), key.scopes, key.allowed) == key;
    } else {
      NotWellAsked(auth, scopes, mailboxes, context);
    }
  }

  /** Otherwise the first thing that is wrong is reported. */
  lemma NotWellAsked(auth: Auth, scopes: Option<seq<string>>, mailboxes: Option<seq<string>>, context: Context)
    requires !WellAsked(auth, scopes, mailboxes, context)
    ensures var r := CreatedKey(auth, scopes, mailboxes, context);
            r.Failure? && if !auth.HasScope(APIKEY_MANAGE) then r.error.MissingScope?
                          else if !AllKnown(scopes, context.catalogue) then r.error.UnknownScopes?
                          else r.error.NotYours?
  {
    NormalizedScopes(context.catalogue, scopes);
    ResolvedIff(mailboxes, context.Owned(auth.User()));
  }

  /** The new key is the caller's user's, and may do exactly what was asked for. */
  lemma CreatedDoesAsAsked(auth: Auth, scopes: Option<seq<string>>, mailboxes: Option<seq<string>>, context: Context)
    requires CreatedKey(auth, scopes, mailboxes, context).Success?
    ensures var key := CreatedKey(auth, scopes, mailboxes, context).value;
            && key.user == auth.User()
            && forall scope, address ::
                 ByKey(key).Holds(scope, address) <==> Asks(scopes, mailboxes, scope, address)
  {
    CreatedIff(auth, scopes, mailboxes, context);
    var key := CreatedGrant(auth, scopes, mailboxes, context);
  }

  // ---------------------------------------------------------------- editing

  /** The same for what an edit names; a field that is absent names nothing. */
  ghost predicate PatchWellAsked(auth: Auth, key: Key, patch: Patch, context: Context) {
    && auth.HasScope(APIKEY_MANAGE) && key.user == auth.User()
    && (patch.scopes.Some? ==> AllKnown(patch.scopes.value, context.catalogue))
    && (patch.mailboxes.Some? ==> NamesOnlyOwned(patch.mailboxes.value, context.Owned(auth.User())))
  }

  /** After the edit the key may use a scope, or a mailbox, as the present field asks, and as before where that is
      absent. */
  ghost predicate PatchAsksScope(key: Key, patch: Patch, scope: string) {
    if patch.scopes.Some? then AsksScope(patch.scopes.value, scope) else ScopeSatisfied(key.scopes, scope)
  }

  ghost predicate PatchAsksMailbox(key: Key, patch: Patch, address: string) {
    if patch.mailboxes.Some? then AsksMailbox(patch.mailboxes.value, address) else ByKey(key).MailboxAllowed(address)
  }

  lemma EditedGrant(auth: Auth, key: Key, patch: Patch, context: Context) returns (edited: Key)
    requires PatchWellAsked(auth, key, patch, context)
    ensures EditedKey(auth, key, patch, context)
         == if GrantWithinCaller(auth, edited.scopes, edited.allowed) then Success(edited) else Failure(TooBroad)
    ensures edited.user == key.user
    ensures patch.scopes.None? ==> edited.scopes == key.scopes
    ensures patch.mailboxes.None? ==> edited.allowed == key.allowed
    ensures patch.scopes.Some? ==> edited.scopes != []
    ensures patch.mailboxes.Some? ==>
              edited.allowed != Some({}) && (edited.allowed.Some? ==> forall m <- edited.allowed.value :: Lower(m) == m)
    ensures forall scope :: ScopeSatisfied(edited.scopes, scope) <==> PatchAsksScope(key, patch, scope)
    ensures forall address :: ByKey(edited).MailboxAllowed(address) <==> PatchAsksMailbox(key, patch, address)
  {
    var scopes, allowed := key.scopes, key.allowed;
    if patch.scopes.Some? {
      NormalizedScopes(context.catalogue, patch.scopes.value);
      scopes := NormalizeScopes(context.catalogue, patch.scopes.value).value;
    }
    if patch.mailboxes.Some? {
      ResolvedIff(patch.mailboxes.value, context.Owned(auth.User()));
      allowed := ResolveMailboxes(patch.mailboxes.value, context.Owned(auth.User())).value;
      ResolvedAllows(patch.mailboxes.value, context.Owned(auth.User()), Key(key.user, scopes, allowed));
    }
    edited := Key(key.user, scopes, allowed);
    SameAllowed(key, edited);
  }

  lemma SameAllowed(key: Key, edited: Key)
    ensures edited.allowed == key.allowed ==>
              forall address :: ByKey(edited).MailboxAllowed(address) <==> ByKey(key).MailboxAllowed(address)
  {
  }

  /** An edit stores the fields that are present as asked and keeps the others, on the same user's key. */
  lemma EditedDoesAsAsked(auth: Auth, key: Key, patch: Patch, context: Context)
    requires EditedKey(auth, key, patch, context).Success?
    ensures var edited := EditedKey(auth, key, patch, context).value;
            && edited.user == key.user
            && (patch.scopes.None? ==> edited.scopes == key.scopes)
            && (patch.mailboxes.None? ==> edited.allowed == key.allowed)
            && (forall scope :: ScopeSatisfied(edited.scopes, scope) <==> PatchAsksScope(key, patch, scope))
            && (forall address :: ByKey(edited).MailboxAllowed(address) <==> PatchAsksMailbox(key, patch, address))
  {
    EditedNeeds(auth, key, patch, context);
    var edited := EditedGrant(auth, key, patch, context);
  }

  lemma EditedNeeds(auth: Auth, key: Key, patch: Patch, context: Context)
    requires EditedKey(auth, key, patch, context).Success?
    ensures PatchWellAsked(auth, key, patch, context)
  {
    if patch.scopes.Some? {
      NormalizedScopes(context.catalogue, patch.scopes.value);
    }
    if patch.mailboxes.Some? {
      ResolvedIff(patch.mailboxes.value, context.Owned(auth.User()));
    }
  }

  /** Keys as requests store them: some scope, and an allow-list, if any, of lower-case addresses. */
  predicate Stored(key: Key) {
    && key.scopes != [] && key.allowed != Some({})
    && (key.allowed.Some? ==> forall m <- key.allowed.value :: Lower(m) == m)
  }

  /** A stored key is edited just when the request is well asked and the key would then do nothing that the caller may
      not do itself. */
  lemma EditedIff(auth: Auth, key: Key, patch: Patch, context: Context)
    requires Stored(key)
    ensures EditedKey(auth, key, patch, context).Success? <==>
              && PatchWellAsked(auth, key, patch, context)
              && forall scope, address :: PatchAsksScope(key, patch, scope) && PatchAsksMailbox(key, patch, address) ==>
                   auth.Holds(scope, address)
    ensures EditedKey(auth, key, patch, context).Success? ==> Stored(EditedKey(auth, key, patch, context).value)
  {
    if PatchWellAsked(auth, key, patch, context) {
      var edited := EditedGrant(auth, key, patch, context);
      GuardExact(auth, edited.scopes, edited.allowed);
      assert Key(auth.User(), edited.scopes, edited.allowed) == edited;
      WithinAsked(auth, key, patch, edited);
    } else if EditedKey(auth, key, patch, context).Success? {
      EditedNeeds(auth, key, patch, context);
    }
  }

  lemma WithinAsked(auth: Auth, key: Key, patch: Patch, edited: Key)
    requires edited.user == auth.User()
    requires forall scope :: ScopeSatisfied(edited.scopes, scope) <==> PatchAsksScope(key, patch, scope)
    requires forall address :: ByKey(edited).MailboxAllowed(address) <==> PatchAsksMailbox(key, patch, address)
    ensures Within(ByKey(edited), auth) <==>
              forall scope, address :: PatchAsksScope(key, patch, scope) && PatchAsksMailbox(key, patch, address) ==>
                auth.Holds(scope, address)
  {
    assert forall scope, address ::
        ByKey(edited).Holds(scope, address) <==>
          PatchAsksScope(key, patch, scope) && PatchAsksMailbox(key, patch, address);
  }
}
