/** The SPF validator and the drift comparison of the domain audit. */
module SpfRecord {
  import opened Wrappers
  import opened Text

  /** What `ipaddress` reads from a text: a single address with its canonical rendering, or the IP version
      of a network. */
  datatype Address = Address(version: nat, text: string)
  datatype Ip = Ip(address: string -> Option<Address>, network: string -> Option<nat>)

  datatype SpfError =
    | NoVersion
    | NoMechanisms
    | EmptyTerm
    | QualifiedModifier
    | BadModifier
    | DuplicateModifier
    | BadAll
    | BadAddressMechanism
    | BadIp4Length
    | BadIp6Length
    | BadPtr
    | BadTarget
    | BadIpMechanism
    | BadNetwork
    | WrongFamily
    | UnknownMechanism
    | TooManyLookups(terms: nat)

  /** A well-formed term: its modifier name if it is a modifier, and whether it costs a DNS lookup. */
  datatype Term = Term(modifier: Option<string>, lookup: bool)

  // ---------------------------------------------------------------- one term

  predicate IsQualifier(c: char) {
    c in "+-~?"
  }

  function Bare(raw: string): string {
    if raw != "" && IsQualifier(raw[0]) then raw[1..] else raw
  }

  predicate IsLetter(c: char) {
    'a' <= c <= 'z' || 'A' <= c <= 'Z'
  }

  predicate IsDigit(c: char) {
    '0' <= c <= '9'
  }

  predicate IsModifierName(name: string) {
    name != "" && IsLetter(name[0]) && forall c <- name[1..] :: IsLetter(c) || IsDigit(c) || c in "_.-"
  }

  /** The longest prefix of at most `limit` digits. */
  function LeadingDigits(s: string, limit: nat): string {
    if limit == 0 || s == "" || !IsDigit(s[0]) then "" else [s[0]] + LeadingDigits(s[1..], limit - 1)
  }

  function DecimalValue(digits: string): nat {
    if digits == "" then 0
    else
      var last := digits[|digits| - 1];
      10 * DecimalValue(digits[..|digits| - 1]) + (if IsDigit(last) then last as int - '0' as int else 0)
  }

  /** An optional `slash` followed by one to three digits: the number, and the text after it. */
  function ReadLength(slash: string, s: string): (Option<nat>, string) {
    if StartsWith(s, slash) && LeadingDigits(s[|slash|..], 3) != "" then
      var digits := LeadingDigits(s[|slash|..], 3);
      LeadingDigitsPrefix(s[|slash|..], 3);
      (Some(DecimalValue(digits)), s[|slash| + |digits|..])
    else (None, s)
  }

  lemma {:induction false} LeadingDigitsPrefix(s: string, limit: nat)
    ensures LeadingDigits(s, limit) <= s
  {
    if !(limit == 0 || s == "" || !IsDigit(s[0])) {
      LeadingDigitsPrefix(s[1..], limit - 1);
    }
  }

  /** `name(:[^/]+)?(/d{1,3})?(//d{1,3})?` on the text after the mechanism's name. */
  function CheckAddressMechanism(rest: string): Option<SpfError> {
    var host := if StartsWith(rest, ":") then Before(rest[1..], '/') else "";
    var lengths := if host == "" then rest else rest[1 + |host|..];
    var (ip4, rest4) := ReadLength("/", lengths);
    var (ip6, rest6) := ReadLength("//", rest4);
    if rest6 != "" then Some(BadAddressMechanism)
    else if ip4.Some? && ip4.value > 32 then Some(BadIp4Length)
    else if ip6.Some? && ip6.value > 128 then Some(BadIp6Length)
    else None
  }

  function MechanismName(term: string): string {
    Lower(Before(Before(term, ':'), '/'))
  }

  function CheckMechanism(ip: Ip, term: string): Option<SpfError> {
    var name := MechanismName(term);
    if name == "all" then
      if Lower(term) == "all" then None else Some(BadAll)
    else if name == "a" || name == "mx" then
      CheckAddressMechanism(term[|name|..])
    else if name == "ptr" then
      if |term| == 3 || (term[3] == ':' && |term| > 4 && '/' !in term) then None else Some(BadPtr)
    else if name == "include" || name == "exists" then
      if StartsWith(Lower(term), name + ":") && |term| > |name| + 1 then None else Some(BadTarget)
    else if name == "ip4" || name == "ip6" then
      if !StartsWith(Lower(term), name + ":") then Some(BadIpMechanism)
      else
        var version := ip.network(term[4..]);
        if version.None? then Some(BadNetwork)
        else if version.value != (if name == "ip4" then 4 else 6) then Some(WrongFamily)
        else None
    else Some(UnknownMechanism)
  }

  function ReadTerm(ip: Ip, raw: string): Result<Term, SpfError> {
    var term := Bare(raw);
    if term == "" then Failure(EmptyTerm)
    else if '=' in term then
      if term != raw then Failure(QualifiedModifier)
      else if !IsModifierName(Before(term, '=')) || After(term, '=') == "" then Failure(BadModifier)
      else
        var name := Lower(Before(term, '='));
        Success(Term(Some(name), name == "redirect"))
    else
      match CheckMechanism(ip, term)
      case Some(error) => Failure(error)
      case None => Success(Term(None, MechanismName(term) in {"a", "mx", "ptr", "include", "exists"}))
  }

  // ---------------------------------------------------------------- the validator

  function Cost(term: Term): nat {
    if term.lookup then 1 else 0
  }

  type Reader = string -> Result<Term, SpfError>

  function ReaderOf(ip: Ip): Reader {
    raw => ReadTerm(ip, raw)
  }

  /** The validator's loop over `terms`, having counted `lookups` and seen the modifiers `seen`. */
  function CheckTerms(read: Reader, terms: seq<string>, lookups: nat, seen: set<string>): Option<SpfError> {
    if terms == [] then (if lookups > 10 then Some(TooManyLookups(lookups)) else None)
    else
      match read(terms[0])
      case Failure(error) => Some(error)
      case Success(term) =>
        if term.modifier.Some? && term.modifier.value in seen then Some(DuplicateModifier)
        else CheckTerms(read, terms[1..], lookups + Cost(term), Noted(term, seen))
  }

  function Noted(term: Term, seen: set<string>): set<string> {
    if term.modifier.Some? then seen + {term.modifier.value} else seen
  }

  function ValidateTokens(ip: Ip, tokens: seq<string>): Option<SpfError> {
    if tokens == [] || Lower(tokens[0]) != "v=spf1" then Some(NoVersion)
    else if |tokens| == 1 then Some(NoMechanisms)
    else CheckTerms(ReaderOf(ip), tokens[1..], 0, {})
  }

  function Validate(ip: Ip, value: string): Option<SpfError> {
    ValidateTokens(ip, Split(Strip(value)))
  }

  method ValidateSpfRecord(ip: Ip, value: string) returns (error: Option<SpfError>)
    ensures error == Validate(ip, value)
  {
    var tokens := Split(Strip(value));
    if tokens == [] || Lower(tokens[0]) != "v=spf1" {
      return Some(NoVersion);
    }
    if |tokens| == 1 {
      return Some(NoMechanisms);
    }
    error := CheckEachTerm(ReaderOf(ip), tokens[1..]);
  }

  method CheckEachTerm(read: Reader, terms: seq<string>) returns (error: Option<SpfError>)
    ensures error == CheckTerms(read, terms, 0, {})
  {
    var lookups: nat, seen: set<string> := 0, {};
    for i := 0 to |terms|
      invariant CheckTerms(read, terms[i..], lookups, seen) == CheckTerms(read, terms, 0, {})
    {
      assert terms[i..][1..] == terms[i + 1..];
      var term := read(terms[i]);
      if term.Failure? {
        return Some(term.error);
      }
      if term.value.modifier.Some? {
        if term.value.modifier.value in seen {
          return Some(DuplicateModifier);
        }
        seen := seen + {term.value.modifier.value};
      }
      if term.value.lookup {
        lookups := lookups + 1;
      }
    }
    return if lookups > 10 then Some(TooManyLookups(lookups)) else None;
  }

  ghost predicate AllReadable(read: Reader, terms: seq<string>) {
    forall i | 0 <= i < |terms| :: read(terms[i]).Success?
  }

  /** The name of the modifier at `i`, if there is one. */
  ghost function ModifierAt(read: Reader, terms: seq<string>, i: nat): Option<string>
    requires AllReadable(read, terms) && i < |terms|
  {
    read(terms[i]).value.modifier
  }

  ghost predicate ModifiersDistinct(read: Reader, terms: seq<string>, seen: set<string>)
    requires AllReadable(read, terms)
  {
    && (forall i | 0 <= i < |terms| && ModifierAt(read, terms, i).Some? :: ModifierAt(read, terms, i).value !in seen)
    && (forall i, j | 0 <= i < j < |terms| && ModifierAt(read, terms, i).Some? ::
          ModifierAt(read, terms, i) != ModifierAt(read, terms, j))
  }

  ghost function LookupTerms(read: Reader, terms: seq<string>): nat
    requires AllReadable(read, terms)
  {
    if terms == [] then 0 else Cost(read(terms[0]).value) + LookupTerms(read, terms[1..])
  }

  /** What it takes for the terms to be accepted: each one well formed, no modifier twice, and at most ten
      terms that need DNS (section 4.6.4 of RFC 7208). */
  ghost predicate TermsValid(read: Reader, terms: seq<string>) {
    AllReadable(read, terms) && ModifiersDistinct(read, terms, {}) && LookupTerms(read, terms) <= 10
  }

  lemma ValidIff(ip: Ip, value: string)
    ensures var tokens := Split(value);
            Validate(ip, value) == None <==>
              |tokens| >= 2 && Lower(tokens[0]) == "v=spf1" && TermsValid(ReaderOf(ip), tokens[1..])
  {
    SplitStrip(value);
    var tokens := Split(value);
    if tokens != [] {
      CheckTermsIff(ReaderOf(ip), tokens[1..], 0, {});
    }
  }

  lemma {:induction false} CheckTermsIff(read: Reader, terms: seq<string>, lookups: nat, seen: set<string>)
    ensures CheckTerms(read, terms, lookups, seen) == None <==>
              AllReadable(read, terms) && ModifiersDistinct(read, terms, seen) &&
              lookups + LookupTerms(read, terms) <= 10
    ensures AllReadable(read, terms) && ModifiersDistinct(read, terms, seen) &&
            lookups + LookupTerms(read, terms) > 10 ==>
              CheckTerms(read, terms, lookups, seen) == Some(TooManyLookups(lookups + LookupTerms(read, terms)))
  {
    if terms != [] {
      var rest := terms[1..];
      assert forall i | 0 <= i < |rest| :: rest[i] == terms[i + 1];
      assert forall i | 0 < i < |terms| :: terms[i] == rest[i - 1];
      if read(terms[0]).Success? {
        var term := read(terms[0]).value;
        if AllReadable(read, rest) {
          ModifiersDistinctCons(read, terms, seen);
        }
        CheckTermsIff(read, rest, lookups + Cost(term), Noted(term, seen));
      }
    }
  }

  /** The terms before this one are well formed and name no modifier twice. */
  ghost predicate GoodUpTo(read: Reader, terms: seq<string>, seen: set<string>, i: nat)
    requires i < |terms|
  {
    AllReadable(read, terms[..i]) && ModifiersDistinct(read, terms[..i], seen)
  }

  /** An error other than the limit is the one of the first term that has one, or that a modifier is repeated there. */
  lemma {:induction false} FirstErrorReported(read: Reader, terms: seq<string>, lookups: nat, seen: set<string>)
    returns (i: nat)
    requires CheckTerms(read, terms, lookups, seen).Some?
    requires !CheckTerms(read, terms, lookups, seen).value.TooManyLookups?
    requires forall raw :: read(raw).Failure? ==> !read(raw).error.TooManyLookups?
    ensures i < |terms| && GoodUpTo(read, terms, seen, i)
    ensures var error := CheckTerms(read, terms, lookups, seen).value;
            read(terms[i]) == Failure(error) ||
            (error == DuplicateModifier && read(terms[i]).Success? && read(terms[i]).value.modifier.Some?)
  {
    i := 0;
    if terms != [] && read(terms[0]).Success? {
      var term := read(terms[0]).value;
      if !(term.modifier.Some? && term.modifier.value in seen) {
        var rest := FirstErrorReported(read, terms[1..], lookups + Cost(term), Noted(term, seen));
        i := rest + 1;
        GoodOneMore(read, terms, seen, rest);
      }
    }
  }

  lemma GoodOneMore(read: Reader, terms: seq<string>, seen: set<string>, rest: nat)
    requires rest + 1 < |terms| && read(terms[0]).Success?
    requires var term := read(terms[0]).value;
             && !(term.modifier.Some? && term.modifier.value in seen)
             && GoodUpTo(read, terms[1..], Noted(term, seen), rest)
    ensures GoodUpTo(read, terms, seen, rest + 1)
  {
    var front := terms[..rest + 1];
    assert front[1..] == terms[1..][..rest] && front[0] == terms[0];
    assert forall k | 0 < k < |front| :: front[k] == front[1..][k - 1];
    ModifiersDistinctCons(read, front, seen);
  }

  lemma ModifiersDistinctCons(read: Reader, terms: seq<string>, seen: set<string>)
    requires terms != [] && AllReadable(read, terms) && AllReadable(read, terms[1..])
    ensures var first := read(terms[0]).value;
            ModifiersDistinct(read, terms, seen) <==>
              (first.modifier.Some? ==> first.modifier.value !in seen) &&
              ModifiersDistinct(read, terms[1..], Noted(first, seen))
  {
    var rest := terms[1..];
    assert forall i | 0 <= i < |rest| :: ModifierAt(read, rest, i) == ModifierAt(read, terms, i + 1);
    assert forall i | 0 < i < |terms| :: ModifierAt(read, rest, i - 1) == ModifierAt(read, terms, i);
    assert ModifierAt(read, terms, 0) == read(terms[0]).value.modifier;
  }

  // ---------------------------------------------------------------- the comparison

  datatype Parts = Parts(mechanisms: set<string>, terminal: string)

  function Unsigned(token: string): string {
    if StartsWith(token, "+") then token[1..] else token
  }

  predicate IsSimple(token: string) {
    var m := Unsigned(token);
    m == "mx" || m == "a" || StartsWith(m, "mx:") || StartsWith(m, "a:")
  }

  function Canonical(token: string): string {
    StripRightChar(Unsigned(token), '.')
  }

  predicate AllSimple(middle: seq<string>) {
    forall token <- middle :: IsSimple(token)
  }

  function CanonicalSet(middle: seq<string>): set<string> {
    set token | token in middle :: Canonical(token)
  }

  lemma CanonicalSetAppend(middle: seq<string>, token: string)
    ensures CanonicalSet(middle + [token]) == CanonicalSet(middle) + {Canonical(token)}
    ensures AllSimple(middle + [token]) <==> AllSimple(middle) && IsSimple(token)
  {
    assert (middle + [token])[|middle|] == token;
    forall t | t in middle ensures t in middle + [token] {
      var i :| 0 <= i < |middle| && middle[i] == t;
      assert (middle + [token])[i] == t;
    }
  }

  lemma SliceAppend<T>(s: seq<T>, i: nat)
    requires 1 <= i < |s|
    ensures s[1..i + 1] == s[1..i] + [s[i]]
  {
  }

  function Middle(tokens: seq<string>): seq<string>
    requires |tokens| >= 2
  {
    tokens[1..|tokens| - 1]
  }

  lemma InMiddle(tokens: seq<string>, i: nat)
    requires 1 <= i < |tokens| - 1
    ensures tokens[i] in Middle(tokens)
  {
    assert Middle(tokens)[i - 1] == tokens[i];
  }

  function SimpleParts(tokens: seq<string>): Option<Parts> {
    if |tokens| < 2 || tokens[0] != "v=spf1" then None
    else if tokens[|tokens| - 1] !in {"-all", "~all"} then None
    else if !AllSimple(Middle(tokens)) then None
    else Some(Parts(CanonicalSet(Middle(tokens)), tokens[|tokens| - 1]))
  }

  method SimpleSpfParts(value: string) returns (parts: Option<Parts>)
    ensures parts == SimpleParts(Split(value))
  {
    var tokens := Split(value);
    if |tokens| < 2 || tokens[0] != "v=spf1" {
      return None;
    }
    var terminal := tokens[|tokens| - 1];
    if terminal !in {"-all", "~all"} {
      return None;
    }
    var mechanisms: set<string> := {};
    for i := 1 to |tokens| - 1
      invariant AllSimple(tokens[1..i]) && mechanisms == CanonicalSet(tokens[1..i])
    {
      CanonicalSetAppend(tokens[1..i], tokens[i]);
      SliceAppend(tokens, i);
      if IsSimple(tokens[i]) {
        mechanisms := mechanisms + {Canonical(tokens[i])};
        continue;
      }
      InMiddle(tokens, i);
      return None;
    }
    return Some(Parts(mechanisms, terminal));
  }

  /** The mechanisms the published record has to repeat: next to `mx` under a soft fail, the recommended
      `a:` hosts are optional. */
  function Required(parts: Parts): set<string> {
    if "mx" in parts.mechanisms && parts.terminal == "~all"
    then set m | m in parts.mechanisms && !StartsWith(m, "a:")
    else parts.mechanisms
  }

  predicate Covers(expected: Parts, current: Parts) {
    && Required(expected) <= current.mechanisms
    && (current.terminal == expected.terminal || (expected.terminal == "~all" && current.terminal == "-all"))
  }

  function Normalize(value: string): string {
    Join(Split(Lower(value)))
  }

  /** `_record_matches` for the `spf` slot. */
  predicate SpfMatches(ip: Ip, expected: string, current: string) {
    var e, c := Normalize(expected), Normalize(current);
    Validate(ip, e) == None && Validate(ip, c) == None &&
    match (SimpleParts(Split(e)), SimpleParts(Split(c)))
    case (Some(expectedParts), Some(currentParts)) => Covers(expectedParts, currentParts)
    case _ => e == c
  }

  /** The tokens every later step of the comparison sees. */
  function Tokens(value: string): seq<string> {
    Split(Lower(value))
  }

  predicate TokensMatch(ip: Ip, e: seq<string>, c: seq<string>) {
    && ValidateTokens(ip, e) == None
    && ValidateTokens(ip, c) == None
    && match (SimpleParts(e), SimpleParts(c))
       case (Some(expectedParts), Some(currentParts)) => Covers(expectedParts, currentParts)
       case _ => e == c
  }

  /** The comparison depends on the two lower-cased token lists alone. */
  lemma MatchesByTokens(ip: Ip, expected: string, current: string)
    ensures SpfMatches(ip, expected, current) <==> TokensMatch(ip, Tokens(expected), Tokens(current))
  {
    NormalizedTokens(expected);
    NormalizedTokens(current);
  }

  lemma NormalizedTokens(value: string)
    ensures Split(Normalize(value)) == Tokens(value) && Split(Strip(Normalize(value))) == Tokens(value)
    ensures Normalize(value) == Join(Tokens(value))
  {
    SplitWords(Lower(value));
    SplitJoin(Split(Lower(value)));
    SplitStrip(Normalize(value));
  }
}
