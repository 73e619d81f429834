/** API keys that create and edit other API keys: what a key may do, the guard on what it may grant, and how far
    authority can spread over whole runs. */
module KeyDelegation {
  import opened Wrappers
  import opened Text

  const WILDCARD: string := "*"
  const APIKEY_MANAGE: string := "apikey:manage"

  // ---------------------------------------------------------------- scopes

  predicate ScopeSatisfied(granted: seq<string>, required: string) {
    WILDCARD in granted || required in granted
  }

  /** The check that `child` grants no more than `parent`. */
  predicate IsSubset(child: seq<string>, parent: seq<string>) {
    if WILDCARD in parent then true
    else if WILDCARD in child then false
    else forall s <- child :: s in parent
  }

  lemma IsSubsetIff(child: seq<string>, parent: seq<string>)
    ensures IsSubset(child, parent) <==>
            forall required :: ScopeSatisfied(child, required) ==> ScopeSatisfied(parent, required)
  {
    if !IsSubset(child, parent) {
      if WILDCARD in child {
        assert ScopeSatisfied(child, WILDCARD) && !ScopeSatisfied(parent, WILDCARD);
      } else {
        var s :| s in child && s !in parent;
        assert ScopeSatisfied(child, s) && !ScopeSatisfied(parent, s);
      }
    }
  }

  function Unknown(catalogue: seq<string>, requested: seq<string>): set<string> {
    set s <- requested | s !in catalogue && s != WILDCARD
  }

  function Requested(catalogue: seq<string>, requested: seq<string>): seq<string> {
    if catalogue == [] then []
    else (if catalogue[0] in requested then [catalogue[0]] else []) + Requested(catalogue[1..], requested)
  }

  /** A requested scope list in catalogue order. Asking for nothing asks for everything. */
  function NormalizeScopes(catalogue: seq<string>, scopes: Option<seq<string>>): Result<seq<string>, set<string>> {
    if scopes.None? || scopes.value == [] then Success([WILDCARD])
    else if Unknown(catalogue, scopes.value) != {} then Failure(Unknown(catalogue, scopes.value))
    else if WILDCARD in scopes.value then Success([WILDCARD])
    else Success(Requested(catalogue, scopes.value))
  }

  lemma {:induction false} RequestedMembers(catalogue: seq<string>, requested: seq<string>)
    ensures forall s :: s in Requested(catalogue, requested) <==> s in catalogue && s in requested
  {
    if catalogue != [] {
      RequestedMembers(catalogue[1..], requested);
      assert catalogue == [catalogue[0]] + catalogue[1..];
    }
  }

  /** Normalising keeps the meaning of a request: it is refused just for an unknown scope, grants what was named,
      everything when the wildcard or nothing was named, and is never empty. */
  lemma NormalizeMeaning(catalogue: seq<string>, scopes: Option<seq<string>>)
    ensures var r := NormalizeScopes(catalogue, scopes);
            && (r.Failure? <==> scopes.Some? && exists s :: s in scopes.value && s !in catalogue && s != WILDCARD)
            && (r.Failure? ==> forall s :: s in r.error <==> s in scopes.value && s !in catalogue && s != WILDCARD)
            && (r.Success? ==>
                  && r.value != []
                  && forall required :: ScopeSatisfied(r.value, required) <==>
                       scopes.None? || scopes.value == [] || ScopeSatisfied(scopes.value, required))
  {
    if scopes.Some? {
      RequestedMembers(catalogue, scopes.value);
      if Unknown(catalogue, scopes.value) == {} {
        assert forall s <- scopes.value :: s in Unknown(catalogue, scopes.value) || s in catalogue || s == WILDCARD;
        if scopes.value != [] {
          assert scopes.value[0] in scopes.value;
        }
      } else {
        var s :| s in Unknown(catalogue, scopes.value);
      }
    }
  }

  // ---------------------------------------------------------------- what a key may do

  /** A stored key. Its mailbox allow-list matters only as a set; `None` and the empty list restrict nothing. */
  datatype Key = Key(user: string, scopes: seq<string>, allowed: Option<set<string>>)

  /** Who makes a request: a signed-in user, with full power, or one of that user's keys. */
  datatype Auth = Session(user: string) | ByKey(key: Key) {
    function User(): string {
      if Session? then user else key.user
    }

    function Scopes(): seq<string> {
      if Session? then [WILDCARD] else key.scopes
    }

    function AllowedMailboxes(): Option<set<string>> {
      if Session? || key.allowed.None? || key.allowed.value == {} then None
      else Some(set m <- key.allowed.value :: Lower(m))
    }

    predicate HasScope(scope: string) {
      Session? || ScopeSatisfied(key.scopes, scope)
    }

    predicate MailboxAllowed(address: string) {
      AllowedMailboxes().None? || Lower(address) in AllowedMailboxes().value
    }

    /** The authority to exercise a scope on a mailbox. */
    predicate Holds(scope: string, address: string) {
      HasScope(scope) && MailboxAllowed(address)
    }
  }

  /** Everything `child` may do on its user's mailboxes, `parent` may do. */
  ghost predicate Within(child: Auth, parent: Auth) {
    && child.User() == parent.User()
    && forall scope, address :: child.Holds(scope, address) ==> parent.Holds(scope, address)
  }

  // ---------------------------------------------------------------- the guard

  predicate GrantWithinCaller(auth: Auth, scopes: seq<string>, mailboxes: Option<set<string>>) {
    if auth.Session? then true
    else if !IsSubset(scopes, auth.Scopes()) then false
    else
      var parent := auth.AllowedMailboxes();
      !(parent.Some? && (mailboxes.None? || !(mailboxes.value <= parent.value)))
  }

  /** The family the guard lets through by mistake: an empty allow-list is a subset of any, but restricts nothing. */
  predicate EmptyUnderRestricted(auth: Auth, mailboxes: Option<set<string>>) {
    mailboxes == Some({}) && auth.AllowedMailboxes().Some?
  }

  /** What authority comes down to: the scopes of a key that has any, and its allow-list, are the parent's or fewer. */
  lemma WithinIff(child: Key, parent: Auth)
    requires child.user == parent.User()
    ensures Within(ByKey(child), parent) <==>
            || child.scopes == []
            || (IsSubset(child.scopes, parent.Scopes()) && MailboxesWithin(ByKey(child).AllowedMailboxes(), parent))
  {
    if child.scopes != [] && Within(ByKey(child), parent) {
      WithinScopes(child, parent);
      WithinMailboxes(child, parent);
    }
    if IsSubset(child.scopes, parent.Scopes()) {
      IsSubsetIff(child.scopes, parent.Scopes());
    }
  }

  /** An allow-list that restricts at least as much as the parent's. */
  predicate MailboxesWithin(allowed: Option<set<string>>, parent: Auth) {
    parent.AllowedMailboxes().None? || (allowed.Some? && allowed.value <= parent.AllowedMailboxes().value)
  }

  lemma WithinScopes(child: Key, parent: Auth)
    requires child.scopes != [] && Within(ByKey(child), parent)
    ensures IsSubset(child.scopes, parent.Scopes())
  {
    var somewhere := AllowedBy(child.allowed);
    forall required | ScopeSatisfied(child.scopes, required)
      ensures ScopeSatisfied(parent.Scopes(), required)
    {
      assert ByKey(child).Holds(required, somewhere);
      assert parent.Holds(required, somewhere);
    }
    IsSubsetIff(child.scopes, parent.Scopes());
  }

  lemma WithinMailboxes(child: Key, parent: Auth)
    requires child.scopes != [] && Within(ByKey(child), parent)
    ensures MailboxesWithin(ByKey(child).AllowedMailboxes(), parent)
  {
    var allowed, scope := ByKey(child).AllowedMailboxes(), child.scopes[0];
    if parent.AllowedMailboxes().Some? {
      var limit := parent.AllowedMailboxes().value;
      if allowed.None? {
        assert ByKey(child).Holds(scope, Longer(limit));
      } else {
        forall m <- allowed.value
          ensures m in limit
        {
          var raw :| raw in child.allowed.value && Lower(raw) == m;
          assert ByKey(child).Holds(scope, raw);
          assert parent.Holds(scope, raw);
        }
      }
    }
  }

  lemma GuardSound(auth: Auth, scopes: seq<string>, mailboxes: Option<set<string>>)
    requires GrantWithinCaller(auth, scopes, mailboxes) && !EmptyUnderRestricted(auth, mailboxes)
    ensures Within(ByKey(Key(auth.User(), scopes, mailboxes)), auth)
  {
    if auth.ByKey? {
      if auth.AllowedMailboxes().Some? {
        LowerAgain(auth.AllowedMailboxes().value, auth.key.allowed.value);
        LoweredSubset(mailboxes.value, auth.AllowedMailboxes().value);
      }
      WithinIff(Key(auth.User(), scopes, mailboxes), auth);
    }
  }

  lemma LowerAgain(lowered: set<string>, raw: set<string>)
    requires lowered == set m <- raw :: Lower(m)
    ensures forall m <- lowered :: Lower(m) == m
  {
    forall m <- lowered
      ensures Lower(m) == m
    {
      var r :| r in raw && Lower(r) == m;
      LowerIdempotent(r);
    }
  }

  lemma LoweredSubset(small: set<string>, large: set<string>)
    requires small <= large && forall m <- large :: Lower(m) == m
    ensures (set m <- small :: Lower(m)) <= large
  {
    forall m <- (set m <- small :: Lower(m))
      ensures m in large
    {
      var r :| r in small && Lower(r) == m;
    }
  }

  /** An address longer than all of these, so none of them. */
  ghost function Longer(addresses: set<string>): (r: string)
    ensures forall a <- addresses :: |a| < |r|
  {
    if addresses == {} then "@"
    else
      var a :| a in addresses;
      Longer(addresses - {a}) + a + "@"
  }

  /** An address that the allow-list of a grant lets through. */
  ghost function AllowedBy(mailboxes: Option<set<string>>): (r: string)
    ensures ByKey(Key("", [], mailboxes)).MailboxAllowed(r)
  {
    if mailboxes.None? || mailboxes.value == {} then "@"
    else
      var m :| m in mailboxes.value;
      LowerIdempotent(m);
      m
  }

  lemma GuardComplete(auth: Auth, scopes: seq<string>, mailboxes: Option<set<string>>)
    requires mailboxes.Some? ==> forall m <- mailboxes.value :: Lower(m) == m
    requires Within(ByKey(Key(auth.User(), scopes, mailboxes)), auth)
    ensures scopes == [] || (GrantWithinCaller(auth, scopes, mailboxes) && !EmptyUnderRestricted(auth, mailboxes))
  {
    var child := Key(auth.User(), scopes, mailboxes);
    if auth.ByKey? && scopes != [] {
      WithinIff(child, auth);
      if mailboxes.Some? {
        assert (set m <- mailboxes.value :: Lower(m)) == mailboxes.value;
      }
    }
  }

  /** A grant is within the caller's authority just when the guard passes it and it is not an empty allow-list under
      a restricted caller, or when it grants no scope at all. */
  lemma GuardExact(auth: Auth, scopes: seq<string>, mailboxes: Option<set<string>>)
    requires mailboxes.Some? ==> forall m <- mailboxes.value :: Lower(m) == m
    ensures Within(ByKey(Key(auth.User(), scopes, mailboxes)), auth) <==>
            || scopes == []
            || (GrantWithinCaller(auth, scopes, mailboxes) && !EmptyUnderRestricted(auth, mailboxes))
  {
    if scopes == [] {
      NoScopesWithin(auth, mailboxes);
    } else if GrantWithinCaller(auth, scopes, mailboxes) && !EmptyUnderRestricted(auth, mailboxes) {
      GuardSound(auth, scopes, mailboxes);
    }
    if Within(ByKey(Key(auth.User(), scopes, mailboxes)), auth) {
      GuardComplete(auth, scopes, mailboxes);
    }
  }

  /** A key without scopes may do nothing, so it is within any caller. The guard goes by its allow-list alone: it
      passes just when the caller could have granted all of its own scopes with it. */
  lemma NoScopesWithin(auth: Auth, mailboxes: Option<set<string>>)
    ensures Within(ByKey(Key(auth.User(), [], mailboxes)), auth)
    ensures GrantWithinCaller(auth, [], mailboxes) <==> GrantWithinCaller(auth, auth.Scopes(), mailboxes)
  {
    IsSubsetIff([], auth.Scopes());
    IsSubsetIff(auth.Scopes(), auth.Scopes());
  }

  // ---------------------------------------------------------------- creating and editing keys

  datatype Denial =
    | MissingScope
    | NotFound
    | UnknownScopes(unknown: set<string>)
    | NotYours(invalid: set<string>)
    | TooBroad

  /** A requested allow-list, normalised and checked against the mailboxes its user owns. */
  function ResolveMailboxes(requested: Option<seq<string>>, owned: set<string>): Result<Option<set<string>>, Denial> {
    if requested.None? then Success(None)
    else
      var wanted := set address <- requested.value | Strip(address) != "" :: Lower(Strip(address));
      var mine := set address <- owned :: Lower(address);
      if wanted == {} then Success(None)
      else if wanted - mine != {} then Failure(NotYours(wanted - mine))
      else Success(Some(wanted))
  }

  /** No request yields an empty allow-list, and every address of one belongs to the user. */
  lemma ResolvedNeverEmpty(requested: Option<seq<string>>, owned: set<string>)
    ensures var r := ResolveMailboxes(requested, owned);
            r.Success? && r.value.Some? ==>
              && r.value.value != {}
              && forall m <- r.value.value :: Lower(m) == m && exists o :: o in owned && Lower(o) == m
  {
    var r := ResolveMailboxes(requested, owned);
    if r.Success? && r.value.Some? {
      forall m <- r.value.value
        ensures Lower(m) == m && exists o :: o in owned && Lower(o) == m
      {
        var address :| address in requested.value && Lower(Strip(address)) == m;
        LowerIdempotent(Strip(address));
        assert m !in r.value.value - (set o <- owned :: Lower(o));
      }
    }
  }

  /** What surrounds the keys: the scopes there are, and who owns which mailboxes. */
  datatype Context = Context(catalogue: seq<string>, owned: map<string, set<string>>) {
    function Owned(user: string): set<string> {
      if user in owned then owned[user] else {}
    }
  }

  function Guarded(auth: Auth, scopes: seq<string>, mailboxes: Option<set<string>>): Result<Key, Denial> {
    if GrantWithinCaller(auth, scopes, mailboxes) then Success(Key(auth.User(), scopes, mailboxes))
    else Failure(TooBroad)
  }

  /** The key that a request to create one makes. */
  function CreatedKey(auth: Auth, scopes: Option<seq<string>>, mailboxes: Option<seq<string>>, context: Context)
    : Result<Key, Denial>
  {
    if !auth.HasScope(APIKEY_MANAGE) then Failure(MissingScope)
    else
      match NormalizeScopes(context.catalogue, scopes)
      case Failure(unknown) => Failure(UnknownScopes(unknown))
      case Success(granted) =>
        match ResolveMailboxes(mailboxes, context.Owned(auth.User()))
        case Failure(denial) => Failure(denial)
        case Success(allowed) => Guarded(auth, granted, allowed)
  }

  /** A patch: the outer option says whether the field is present. */
  datatype Patch = Patch(scopes: Option<Option<seq<string>>>, mailboxes: Option<Option<seq<string>>>)

  /** The key after a request to edit it; the guard sees the whole grant that results. */
  function EditedKey(auth: Auth, key: Key, patch: Patch, context: Context): Result<Key, Denial> {
    if !auth.HasScope(APIKEY_MANAGE) then Failure(MissingScope)
    else if key.user != auth.User() then Failure(NotFound)
    else
      var scopes :=
        if patch.scopes.Some? then NormalizeScopes(context.catalogue, patch.scopes.value) else Success(key.scopes);
      match scopes
      case Failure(unknown) => Failure(UnknownScopes(unknown))
      case Success(granted) =>
        var mailboxes :=
          if patch.mailboxes.Some? then ResolveMailboxes(patch.mailboxes.value, context.Owned(auth.User()))
          else Success(key.allowed);
        match mailboxes
        case Failure(denial) => Failure(denial)
        case Success(allowed) => Guarded(auth, granted, allowed)
  }

  lemma CreatedWithin(auth: Auth, scopes: Option<seq<string>>, mailboxes: Option<seq<string>>, context: Context)
    requires CreatedKey(auth, scopes, mailboxes, context).Success?
    ensures var key := CreatedKey(auth, scopes, mailboxes, context).value;
            Within(ByKey(key), auth) && key.allowed != Some({})
  {
    var key := CreatedKey(auth, scopes, mailboxes, context).value;
    ResolvedNeverEmpty(mailboxes, context.Owned(auth.User()));
    GuardSound(auth, key.scopes, key.allowed);
  }

  lemma EditedWithin(auth: Auth, key: Key, patch: Patch, context: Context)
    requires EditedKey(auth, key, patch, context).Success? && key.allowed != Some({})
    ensures var edited := EditedKey(auth, key, patch, context).value;
            Within(ByKey(edited), auth) && edited.allowed != Some({})
  {
    var edited := EditedKey(auth, key, patch, context).value;
    if patch.mailboxes.Some? {
      ResolvedNeverEmpty(patch.mailboxes.value, context.Owned(auth.User()));
    }
    GuardSound(auth, edited.scopes, edited.allowed);
  }

  type Keys = map<nat, Key>

  /** The stored keys as the requests update them. */
  class KeyTable {
    var keys: Keys

    constructor ()
      ensures keys == map[]
    {
      keys := map[];
    }

    /** `id` is the new key's, which no other key has. */
    method CreateApiKey(auth: Auth, id: nat, scopes: Option<seq<string>>, mailboxes: Option<seq<string>>,
                        context: Context)
      returns (r: Result<Key, Denial>)
      requires id !in keys
      modifies this
      ensures r == CreatedKey(auth, scopes, mailboxes, context)
      ensures keys == if r.Success? then old(keys)[id := r.value] else old(keys)
    {
      if !auth.HasScope(APIKEY_MANAGE) {
        return Failure(MissingScope);
      }
      var requested := NormalizeScopes(context.catalogue, scopes);
      if requested.Failure? {
        return Failure(UnknownScopes(requested.error));
      }
      var allowed := ResolveMailboxes(mailboxes, context.Owned(auth.User()));
      if allowed.Failure? {
        return Failure(allowed.error);
      }
      if !GrantWithinCaller(auth, requested.value, allowed.value) {
        return Failure(TooBroad);
      }
      keys := keys[id := Key(auth.User(), requested.value, allowed.value)];
      return Success(keys[id]);
    }

    /** An edit that nothing interrupts. */
    method UpdateApiKey(auth: Auth, id: nat, patch: Patch, context: Context) returns (r: Result<Key, Denial>)
      modifies this
      ensures r == if id in old(keys) then EditedKey(auth, old(keys)[id], patch, context)
                   else if auth.HasScope(APIKEY_MANAGE) then Failure(NotFound)
                   else Failure(MissingScope)
      ensures keys == if r.Success? then old(keys)[id := r.value] else old(keys)
    {
      if !auth.HasScope(APIKEY_MANAGE) {
        return Failure(MissingScope);
      }
      if id !in keys || keys[id].user != auth.User() {
        return Failure(NotFound);
      }
      var loaded := keys[id];
      r := GuardEdit(auth, loaded, patch, context);
      if r.Success? {
        CommitEdit(id, loaded, r.value);
      }
    }

    /** The checks on the key as it was loaded, and the grant that they let through. */
    method GuardEdit(auth: Auth, loaded: Key, patch: Patch, context: Context) returns (r: Result<Key, Denial>)
      requires auth.HasScope(APIKEY_MANAGE) && loaded.user == auth.User()
      ensures r == EditedKey(auth, loaded, patch, context)
    {
      var scopes, mailboxes := loaded.scopes, loaded.allowed;
      if patch.scopes.Some? {
        var requested := NormalizeScopes(context.catalogue, patch.scopes.value);
        if requested.Failure? {
          return Failure(UnknownScopes(requested.error));
        }
        scopes := requested.value;
      }
      if patch.mailboxes.Some? {
        var resolved := ResolveMailboxes(patch.mailboxes.value, context.Owned(auth.User()));
        if resolved.Failure? {
          return Failure(resolved.error);
        }
        mailboxes := resolved.value;
      }
      if !GrantWithinCaller(auth, scopes, mailboxes) {
        return Failure(TooBroad);
      }
      return Success(Key(loaded.user, scopes, mailboxes));
    }

    /** The commit updates the changed columns of whatever row is stored by now, and fails if there is none. */
    method CommitEdit(id: nat, loaded: Key, edited: Key)
      modifies this
      ensures keys == if id in old(keys) then old(keys)[id := Merged(old(keys)[id], loaded, edited)] else old(keys)
    {
      if id in keys {
        var row := keys[id];
        if edited.scopes != loaded.scopes {
          row := row.(scopes := edited.scopes);
        }
        if edited.allowed != loaded.allowed {
          row := row.(allowed := edited.allowed);
        }
        keys := keys[id := row];
      }
    }
  }

  /** The stored row with those fields written over that the edit changed of the key as it was loaded. */
  function Merged(stored: Key, loaded: Key, edited: Key): Key {
    stored.(scopes := if edited.scopes != loaded.scopes then edited.scopes else stored.scopes,
            allowed := if edited.allowed != loaded.allowed then edited.allowed else stored.allowed)
  }

  /** Why the stored lists matter: a restricted key may edit a key whose stored list is empty, and keep it
      unrestricted. */
  lemma EmptyListEscapes(user: string, mailbox: string, context: Context)
    ensures var caller := ByKey(Key(user, [WILDCARD], Some({mailbox})));
            var edited := EditedKey(caller, Key(user, [], Some({})), Patch(Some(None), None), context);
            edited.Success? && !Within(ByKey(edited.value), caller)
  {
    var caller := ByKey(Key(user, [WILDCARD], Some({mailbox})));
    var edited := EditedKey(caller, Key(user, [], Some({})), Patch(Some(None), None), context).value;
    var elsewhere := Longer({Lower(mailbox)});
    assert ByKey(edited).Holds(WILDCARD, elsewhere) && !caller.Holds(WILDCARD, elsewhere);
  }
}
