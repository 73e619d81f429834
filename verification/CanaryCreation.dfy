/** Creating a staged send: case-insensitive deduplication and domain suppression. */
module CanaryCreation {
  import opened Wrappers
  import opened Text
  import TextMeaning
  import opened Sequences
  import opened Canary
  import opened CanaryRuns
  import opened CanarySessions

  /** Syntax validation, and whether the domain of an address is suppressed for sending. */
  datatype Policy = Policy(valid: string -> bool, suppressed: string -> bool)

  datatype CreationError = NoValidRecipients

  predicate Usable(raw: string, policy: Policy) {
    Strip(raw) != "" && policy.valid(Strip(raw))
  }

  /** The first usable spelling of each address, in order: `unique.setdefault(candidate.lower(), candidate)`. */
  function Unique(raws: seq<string>, policy: Policy): seq<string> {
    if raws == [] then []
    else
      var before, raw := Unique(raws[..|raws| - 1], policy), raws[|raws| - 1];
      if Usable(raw, policy) && Lower(Strip(raw)) !in LowerSet(before) then before + [Strip(raw)] else before
  }

  function Keep(emails: seq<string>, policy: Policy, suppressed: bool): seq<Recipient> {
    if emails == [] then []
    else
      var last := emails[|emails| - 1];
      Keep(emails[..|emails| - 1], policy, suppressed)
        + (if policy.suppressed(last) == suppressed
           then [Recipient(last, Held, if suppressed then Skipped else Pending, None)] else [])
  }

  /** The rows of the new batch: sendable recipients first, then the suppressed ones. */
  function Created(raws: seq<string>, policy: Policy): seq<Recipient> {
    var unique := Unique(raws, policy);
    Keep(unique, policy, false) + Keep(unique, policy, true)
  }

  method CreateCanary(raws: seq<string>, policy: Policy, sampleSize: int, threshold: real)
    returns (result: Result<StagedSend, CreationError>)
    ensures result.Failure? <==> forall raw <- raws :: !Usable(raw, policy)
    ensures result.Success? ==>
              && fresh(result.value) && result.value.Valid()
              && result.value.rows == Created(raws, policy)
              && result.value.sampleSize == sampleSize && result.value.threshold == threshold
              && (forall i | 0 <= i < |result.value.attempts| :: result.value.attempts[i] == 0)
              && result.value.status ==
                 if Keep(Unique(raws, policy), policy, false) == [] then BatchBlocked else BatchPending
  {
    var unique: seq<string>, keys: set<string> := [], {};
    for i := 0 to |raws|
      invariant unique == Unique(raws[..i], policy) && keys == LowerSet(unique)
    {
      assert raws[..i + 1][..i] == raws[..i];
      var candidate := Strip(raws[i]);
      if candidate == "" || !policy.valid(candidate) {
        continue;
      }
      if Lower(candidate) !in keys {
        LowerSetAppend(unique, candidate);
        unique := unique + [candidate];
        keys := keys + {Lower(candidate)};
      }
    }
    assert raws[..|raws|] == raws;
    UniqueCovers(raws, policy);
    if unique == [] {
      return Failure(NoValidRecipients);
    }
    UniqueSource(raws, policy);
    assert unique[0] in unique;
    var sendable := Keep(unique, policy, false);
    var skipped := Keep(unique, policy, true);
    var canary := new StagedSend(sendable + skipped, sampleSize, threshold);
    if sendable == [] {
      canary.status := BatchBlocked;
    }
    return Success(canary);
  }

  lemma LowerSetAppend(emails: seq<string>, email: string)
    ensures LowerSet(emails + [email]) == LowerSet(emails) + {Lower(email)}
  {
    assert (emails + [email])[|emails|] == email;
    assert forall i | 0 <= i < |emails| :: (emails + [email])[i] == emails[i];
  }

  /** Every usable input is represented. */
  lemma {:induction false} UniqueCovers(raws: seq<string>, policy: Policy)
    ensures forall raw | raw in raws && Usable(raw, policy) :: Lower(Strip(raw)) in LowerSet(Unique(raws, policy))
  {
    if raws != [] {
      var before, last := raws[..|raws| - 1], raws[|raws| - 1];
      UniqueCovers(before, policy);
      LowerSetAppend(Unique(before, policy), Strip(last));
      assert forall raw <- raws :: raw == last || raw in before;
    }
  }

  /** Every address kept is a usable input. */
  lemma {:induction false} UniqueSource(raws: seq<string>, policy: Policy)
    ensures forall email <- Unique(raws, policy) ::
              exists raw :: raw in raws && Usable(raw, policy) && Strip(raw) == email
  {
    if raws != [] {
      var before, last := raws[..|raws| - 1], raws[|raws| - 1];
      UniqueSource(before, policy);
      assert last in raws && forall raw <- before :: raw in raws;
    }
  }

  ghost predicate AddressesDistinct(emails: seq<string>) {
    forall i, j | 0 <= i < j < |emails| :: Lower(emails[i]) != Lower(emails[j])
  }

  lemma {:induction false} UniqueDistinct(raws: seq<string>, policy: Policy)
    ensures AddressesDistinct(Unique(raws, policy))
  {
    if raws != [] {
      UniqueDistinct(raws[..|raws| - 1], policy);
      var before := Unique(raws[..|raws| - 1], policy);
      assert forall i | 0 <= i < |before| :: Lower(before[i]) in LowerSet(before);
    }
  }

  ghost predicate RowsDistinct(rows: seq<Recipient>) {
    forall i, j | 0 <= i < j < |rows| :: Lower(rows[i].email) != Lower(rows[j].email)
  }

  /** The row a kept address starts with. */
  function NewRow(email: string, policy: Policy): Recipient {
    Recipient(email, Held, if policy.suppressed(email) then Skipped else Pending, None)
  }

  /** Keeping one side of the suppression policy keeps exactly its addresses, each once. */
  lemma {:induction false} KeepRows(emails: seq<string>, policy: Policy, suppressed: bool)
    requires AddressesDistinct(emails)
    ensures var rows := Keep(emails, policy, suppressed);
            && RowsDistinct(rows)
            && (forall row <- rows ::
                  row.email in emails && policy.suppressed(row.email) == suppressed && row == NewRow(row.email, policy))
            && (forall email <- emails | policy.suppressed(email) == suppressed :: NewRow(email, policy) in rows)
  {
    KeepMembers(emails, policy, suppressed);
    KeepDistinct(emails, policy, suppressed);
  }

  lemma {:induction false} KeepMembers(emails: seq<string>, policy: Policy, suppressed: bool)
    ensures var rows := Keep(emails, policy, suppressed);
            && (forall row <- rows ::
                  row.email in emails && policy.suppressed(row.email) == suppressed && row == NewRow(row.email, policy))
            && (forall email <- emails | policy.suppressed(email) == suppressed :: NewRow(email, policy) in rows)
  {
    if emails != [] {
      var before, last := emails[..|emails| - 1], emails[|emails| - 1];
      KeepMembers(before, policy, suppressed);
      assert forall email <- emails :: email == last || email in before;
      assert forall email <- before :: email in emails;
      assert last in emails;
    }
  }

  lemma {:induction false} KeepDistinct(emails: seq<string>, policy: Policy, suppressed: bool)
    requires AddressesDistinct(emails)
    ensures RowsDistinct(Keep(emails, policy, suppressed))
  {
    if emails != [] {
      var before := emails[..|emails| - 1];
      KeepDistinct(before, policy, suppressed);
      KeepMembers(before, policy, suppressed);
      NewKey(emails, Keep(before, policy, suppressed));
    }
  }

  lemma NewKey(emails: seq<string>, rows: seq<Recipient>)
    requires emails != [] && AddressesDistinct(emails)
    requires forall row <- rows :: row.email in emails[..|emails| - 1]
    ensures forall i | 0 <= i < |rows| :: Lower(rows[i].email) != Lower(emails[|emails| - 1])
  {
    forall i | 0 <= i < |rows|
      ensures Lower(rows[i].email) != Lower(emails[|emails| - 1])
    {
      assert rows[i] in rows;
      var k :| 0 <= k < |emails| - 1 && emails[k] == rows[i].email;
    }
  }

  /** A new batch has one row for each usable address, whatever its spelling, held, unscored, and pending
      exactly when its domain is not suppressed. */
  lemma CreatedOncePerAddress(raws: seq<string>, policy: Policy)
    ensures var rows := Created(raws, policy);
            && (forall raw | raw in raws && Usable(raw, policy) ::
                  exists row :: row in rows && Lower(row.email) == Lower(Strip(raw)))
            && (forall row <- rows :: exists raw :: raw in raws && Usable(raw, policy) && Strip(raw) == row.email)
            && (forall row <- rows :: row == NewRow(row.email, policy))
            && RowsDistinct(rows)
  {
    var unique := Unique(raws, policy);
    UniqueDistinct(raws, policy);
    CreatedDistinct(unique, policy);
    forall raw | raw in raws && Usable(raw, policy)
      ensures exists row :: row in Created(raws, policy) && Lower(row.email) == Lower(Strip(raw))
    {
      UniqueCovers(raws, policy);
      var email :| email in unique && Lower(email) == Lower(Strip(raw));
      RowKept(unique, policy, email);
    }
    forall row <- Created(raws, policy)
      ensures row == NewRow(row.email, policy)
      ensures exists raw :: raw in raws && Usable(raw, policy) && Strip(raw) == row.email
    {
      RowOf(unique, policy, row);
      UniqueSource(raws, policy);
    }
  }

  lemma RowKept(unique: seq<string>, policy: Policy, email: string)
    requires AddressesDistinct(unique) && email in unique
    ensures NewRow(email, policy) in Keep(unique, policy, false) + Keep(unique, policy, true)
  {
    KeepRows(unique, policy, policy.suppressed(email));
  }

  lemma RowOf(unique: seq<string>, policy: Policy, row: Recipient)
    requires AddressesDistinct(unique) && row in Keep(unique, policy, false) + Keep(unique, policy, true)
    ensures row.email in unique && row == NewRow(row.email, policy)
  {
    KeepRows(unique, policy, false);
    KeepRows(unique, policy, true);
  }

  lemma CreatedDistinct(unique: seq<string>, policy: Policy)
    requires AddressesDistinct(unique)
    ensures RowsDistinct(Keep(unique, policy, false) + Keep(unique, policy, true))
  {
    KeepRows(unique, policy, false);
    KeepRows(unique, policy, true);
    var pending, skipped := Keep(unique, policy, false), Keep(unique, policy, true);
    forall i, j | 0 <= i < |pending| && 0 <= j < |skipped|
      ensures Lower(pending[i].email) != Lower(skipped[j].email)
    {
      var x, y := pending[i].email, skipped[j].email;
      assert pending[i] in pending && skipped[j] in skipped;
      var p :| 0 <= p < |unique| && unique[p] == x;
      var q :| 0 <= q < |unique| && unique[q] == y;
      assert p != q;
      assert Lower(unique[p]) != Lower(unique[q]);
    }
  }

  function NewBatch(raws: seq<string>, policy: Policy, sampleSize: int, threshold: real): Batch {
    var rows := Created(raws, policy);
    Batch(rows, if Keep(Unique(raws, policy), policy, false) == [] then BatchBlocked else BatchPending,
          seq(|rows|, _ => 0), [], sampleSize, threshold, false, 0, 0, 0)
  }

  lemma NewBatchFresh(raws: seq<string>, policy: Policy, sampleSize: int, threshold: real)
    ensures Fresh(NewBatch(raws, policy, sampleSize, threshold))
  {
    CreatedOncePerAddress(raws, policy);
    var rows := Created(raws, policy);
    assert forall i | 0 <= i < |rows| :: rows[i] in rows;
  }

  /** So every address, in any spelling, is tried at most once, plus once for each sending session that was cut off
      or that loaded its rows while another was sending. */
  lemma AddressTriedOnce(raws: seq<string>, policy: Policy, sampleSize: int, threshold: real,
                         events: seq<Event>, i: nat, j: nat)
    requires i < |Created(raws, policy)| && j < |Created(raws, policy)|
    ensures var after := Run(NewBatch(raws, policy, sampleSize, threshold), events);
            && |after.attempts| == |after.rows| == |Created(raws, policy)|
            && after.attempts[i] <= 1 + after.cutOffs + after.overlaps
            && (Undisturbed(NewBatch(raws, policy, sampleSize, threshold), events) ==> after.attempts[i] <= 1)
            && (Lower(after.rows[i].email) == Lower(after.rows[j].email) ==> i == j)
  {
    var b := NewBatch(raws, policy, sampleSize, threshold);
    NewBatchFresh(raws, policy, sampleSize, threshold);
    CreatedOncePerAddress(raws, policy);
    AtMostOneAttempt(b, events, i);
    if Undisturbed(b, events) {
      OneAttemptUndisturbed(b, events, i);
    }
    SameAddresses(b, events);
  }

  lemma SameAddresses(b: Batch, events: seq<Event>)
    requires Fresh(b)
    ensures |Run(b, events).rows| == |b.rows|
    ensures forall i | 0 <= i < |b.rows| :: Run(b, events).rows[i].email == b.rows[i].email
  {
    RunKeepsInvariant(b, events);
    assert forall i | 0 <= i < |b.rows| :: Later(b.rows[i], Run(b, events).rows[i]);
  }

  // ---------------------------------------------------------------- which spelling, and in which order

  predicate SameMailbox(a: string, b: string) {
    Lower(Strip(a)) == Lower(Strip(b))
  }

  /** The first usable spelling of its address. */
  ghost predicate FirstSpelling(raws: seq<string>, policy: Policy, i: nat)
    requires i < |raws|
  {
    Usable(raws[i], policy) && forall j: nat | j < i && Usable(raws[j], policy) :: !SameMailbox(raws[j], raws[i])
  }

  lemma LowerKept(raws: seq<string>, policy: Policy, i: nat)
    requires i < |raws|
    ensures Lower(Strip(raws[i])) in LowerSet(Unique(raws[..i], policy)) <==>
            exists j: nat :: j < i && Usable(raws[j], policy) && SameMailbox(raws[j], raws[i])
  {
    var before := raws[..i];
    UniqueCovers(before, policy);
    UniqueSource(before, policy);
    if j: nat :| j < i && Usable(raws[j], policy) && SameMailbox(raws[j], raws[i]) {
      assert raws[j] == before[j] && before[j] in before;
    }
    if Lower(Strip(raws[i])) in LowerSet(Unique(before, policy)) {
      var email :| email in Unique(before, policy) && Lower(email) == Lower(Strip(raws[i]));
      var raw :| raw in before && Usable(raw, policy) && Strip(raw) == email;
      var j: nat :| j < |before| && before[j] == raw;
      assert Usable(raws[j], policy) && SameMailbox(raws[j], raws[i]);
    }
  }

  /** The addresses kept are the first usable spellings, stripped, in the order of the request. */
  lemma {:induction false} FirstSpellingsKept(raws: seq<string>, policy: Policy) returns (p: seq<nat>)
    ensures Increasing(p) && |Unique(raws, policy)| == |p|
    ensures forall i: nat :: i in p <==> i < |raws| && FirstSpelling(raws, policy, i)
    ensures forall k | 0 <= k < |p| :: p[k] < |raws| && Unique(raws, policy)[k] == Strip(raws[p[k]])
  {
    if raws == [] {
      p := [];
    } else {
      var n := |raws| - 1;
      p := FirstSpellingsKept(raws[..n], policy);
      LastSpelling(raws, policy);
      forall i: nat | i < n
        ensures FirstSpelling(raws[..n], policy, i) <==> FirstSpelling(raws, policy, i)
      {
        EarlierSpelling(raws, policy, i);
      }
      if FirstSpelling(raws, policy, n) {
        IncreasingNext(p, n);
        p := p + [n];
      }
    }
  }

  lemma LastSpelling(raws: seq<string>, policy: Policy)
    requires raws != []
    ensures var n := |raws| - 1;
            Unique(raws, policy) ==
            if FirstSpelling(raws, policy, n) then Unique(raws[..n], policy) + [Strip(raws[n])]
            else Unique(raws[..n], policy)
  {
    LowerKept(raws, policy, |raws| - 1);
  }

  lemma EarlierSpelling(raws: seq<string>, policy: Policy, i: nat)
    requires i + 1 < |raws|
    ensures FirstSpelling(raws[..|raws| - 1], policy, i) <==> FirstSpelling(raws, policy, i)
  {
    var earlier := raws[..|raws| - 1];
    assert forall j: nat | j <= i :: earlier[j] == raws[j];
  }

  /** One side of the suppression policy keeps its addresses in order, held and unscored, pending unless suppressed. */
  lemma {:induction false} KeptInOrder(emails: seq<string>, policy: Policy, suppressed: bool) returns (p: seq<nat>)
    ensures Increasing(p) && |Keep(emails, policy, suppressed)| == |p|
    ensures forall i: nat :: i in p <==> i < |emails| && policy.suppressed(emails[i]) == suppressed
    ensures forall k | 0 <= k < |p| :: p[k] < |emails| &&
              Keep(emails, policy, suppressed)[k]
              == Recipient(emails[p[k]], Held, if policy.suppressed(emails[p[k]]) then Skipped else Pending, None)
  {
    if emails == [] {
      p := [];
    } else {
      var n := |emails| - 1;
      p := KeptInOrder(emails[..n], policy, suppressed);
      if policy.suppressed(emails[n]) == suppressed {
        IncreasingNext(p, n);
        p := p + [n];
      }
    }
  }

  /** An entry is usable if it is not blank and what it holds is a valid address. */
  lemma UsableIff(raw: string, policy: Policy)
    ensures Usable(raw, policy) <==> policy.valid(Strip(raw)) && exists i :: 0 <= i < |raw| && !IsSpace(raw[i])
  {
    var left, right := TextMeaning.StripMeans(raw);
    if Strip(raw) != "" {
      assert raw[|left|] == Strip(raw)[0];
    } else {
      assert raw == left + right;
    }
  }

  /** The rows to be sent come first, the suppressed ones last. */
  lemma SuppressedLast(raws: seq<string>, policy: Policy) returns (m: nat)
    ensures var rows := Created(raws, policy);
            && m <= |rows|
            && (forall i | 0 <= i < m :: rows[i].status == Pending)
            && (forall i | m <= i < |rows| :: rows[i].status == Skipped)
  {
    var unique := Unique(raws, policy);
    var p := KeptInOrder(unique, policy, false);
    var q := KeptInOrder(unique, policy, true);
    assert forall k | 0 <= k < |p| :: p[k] in p;
    assert forall k | 0 <= k < |q| :: q[k] in q;
    m := |p|;
  }
}
