/** What section 4.6.4 of RFC 7208 counts of a record, next to what the published-SPF check counts: where the two agree,
    term by term and over whole expansion trees. */
module SpfStandard {
  import opened Wrappers
  import opened Arithmetic
  import opened Text
  import opened Sequences
  import opened SpfExpansion
  import SpfRecord

  // ---------------------------------------------------------------- one term

  /** The mechanisms that query the DNS. */
  const QUERIES: set<string> := {"a", "mx", "ptr", "include", "exists"}

  /** The name of a term ends where its value, its prefix length or its modifier value begins. */
  function Name(term: string): string {
    Before(Before(Before(term, ':'), '/'), '=')
  }

  /** The character after the name. */
  function Delimiter(term: string): Option<char> {
    NameEnds(term);
    if |Name(term)| < |term| then Some(term[|Name(term)|]) else None
  }

  lemma NameEnds(term: string)
    ensures Name(term) <= term && forall c <- Name(term) :: c !in {':', '/', '='}
    ensures |Name(term)| < |term| ==> term[|Name(term)|] in {':', '/', '='}
  {
  }

  /** At most one qualifier, as the grammar allows. */
  predicate Qualified(raw: string) {
    SpfRecord.Bare(raw) == "" || !SpfRecord.IsQualifier(SpfRecord.Bare(raw)[0])
  }

  /** Section 4.6.4: the mechanisms that query the DNS and the modifier `redirect` count. */
  function StandardCost(raw: string): nat {
    var term := SpfRecord.Bare(raw);
    if Delimiter(term) == Some('=') then (if Lower(Name(term)) == "redirect" then 1 else 0)
    else if Lower(Name(term)) in QUERIES then 1
    else 0
  }

  /** The domains whose records the standard evaluates as well. */
  function StandardTargets(raw: string): seq<string> {
    var term := SpfRecord.Bare(raw);
    NameEnds(term);
    var name, rest := Lower(Name(term)), term[|Name(term)|..];
    if (name == "include" && Delimiter(term) == Some(':')) || (name == "redirect" && Delimiter(term) == Some('=')) then
      [rest[1..]]
    else []
  }

  /** A querying mechanism with a prefix length right after its name: the check counts it as nothing. */
  predicate Slashed(raw: string) {
    var term := SpfRecord.Bare(raw);
    Delimiter(term) == Some('/') && Lower(Name(term)) in QUERIES
  }

  /** A modifier named like a querying mechanism, or `redirect` used as a mechanism: the check counts it. */
  predicate Misnamed(raw: string) {
    var term := SpfRecord.Bare(raw);
    if Delimiter(term) == Some('=') then Lower(Name(term)) in QUERIES
    else Delimiter(term) != Some('/') && Lower(Name(term)) == "redirect"
  }

  /** A misnamed term that the check also takes a domain from. */
  predicate Diverted(raw: string) {
    var term := SpfRecord.Bare(raw);
    || (Delimiter(term) == Some('=') && Lower(Name(term)) == "include" && ':' in term)
    || (Delimiter(term) == Some(':') && Lower(Name(term)) == "redirect" && '=' in term)
  }

  function SlashedCost(raw: string): nat {
    if Slashed(raw) then 1 else 0
  }

  function MisnamedCost(raw: string): nat {
    if Misnamed(raw) then 1 else 0
  }

  lemma QualifiedBare(raw: string)
    requires Qualified(raw)
    ensures StripQualifiers(raw) == SpfRecord.Bare(raw)
  {
  }

  /** Two prefixes that both go on up to the first of these characters are the same. */
  lemma SameStop(s: string, a: string, b: string, stops: set<char>)
    requires a <= s && (forall i | 0 <= i < |a| :: a[i] !in stops) && (|a| < |s| ==> s[|a|] in stops)
    requires b <= s && (forall i | 0 <= i < |b| :: b[i] !in stops) && (|b| < |s| ==> s[|b|] in stops)
    ensures a == b
  {
    assert a == s[..|a|] && b == s[..|b|];
  }

  lemma NoStopBefore(s: string, a: string, n: nat, stops: set<char>)
    requires a <= s && (|a| < |s| ==> s[|a|] in stops)
    requires n < |s| && forall i | 0 <= i <= n :: s[i] !in stops
    ensures n < |a| && s[n] in a
  {
    assert a[n] == s[n];
  }

  /** The check cuts a name at `:` and `=` only. */
  lemma CutName(term: string)
    ensures var cut := Before(Before(term, ':'), '=');
            if Delimiter(term) == Some('/') then '/' in cut else cut == Name(term)
  {
    CutEnds(term);
    CutAt(term, Before(Before(term, ':'), '='));
  }

  lemma CutAt(term: string, cut: string)
    requires cut <= term && (forall i | 0 <= i < |cut| :: cut[i] !in {':', '='})
    requires |cut| < |term| ==> term[|cut|] in {':', '='}
    ensures if Delimiter(term) == Some('/') then '/' in cut else cut == Name(term)
  {
    NameEnds(term);
    if Delimiter(term) == Some('/') {
      SlashBehindName(term);
      NoStopBefore(term, cut, |Name(term)|, {':', '='});
    } else {
      assert |Name(term)| < |term| ==> term[|Name(term)|] in {':', '='};
      SameStop(term, cut, Name(term), {':', '='});
    }
  }

  lemma SlashBehindName(term: string)
    requires Delimiter(term) == Some('/')
    ensures var n := |Name(term)|; n < |term| && term[n] == '/' && forall i | 0 <= i <= n :: term[i] !in {':', '='}
  {
    NameEnds(term);
    var name := Name(term);
    assert forall i | 0 <= i < |name| :: term[i] == name[i] && name[i] in name;
  }

  lemma CutEnds(term: string)
    ensures var cut := Before(Before(term, ':'), '=');
            && cut <= term && (forall i | 0 <= i < |cut| :: cut[i] !in {':', '='})
            && (|cut| < |term| ==> term[|cut|] in {':', '='})
  {
  }

  lemma LowerHas(s: string, c: char)
    requires c in s && LowerChar(c) == c
    ensures c in Lower(s)
  {
    var i :| 0 <= i < |s| && s[i] == c;
    assert Lower(s)[i] == c;
  }

  lemma NoSlash()
    ensures forall word <- QUERIES + {"redirect"} :: '/' !in word
  {
  }

  /** What the check counts of a term, against what the standard does: exactly the slashed terms are free, and exactly
      the misnamed ones are counted for nothing. */
  lemma TermCost(raw: string)
    requires Qualified(raw)
    ensures TermLookups(raw) + SlashedCost(raw) == StandardCost(raw) + MisnamedCost(raw)
    ensures TermLookups(raw) == StandardCost(raw) <==> !Slashed(raw) && !Misnamed(raw)
  {
    var term := SpfRecord.Bare(raw);
    QualifiedBare(raw);
    CutName(term);
    if Delimiter(term) == Some('/') {
      LowerHas(Before(Before(term, ':'), '='), '/');
      NoSlash();
    }
  }

  /** The check follows the standard's domains, but for the diverted terms. */
  lemma TargetsAgreeIff(raw: string)
    requires Qualified(raw)
    ensures TermTargets(raw) == StandardTargets(raw) <==> !Diverted(raw)
  {
    var term := SpfRecord.Bare(raw);
    QualifiedBare(raw);
    CutName(term);
    NameEnds(term);
    if Delimiter(term) == Some('/') {
      LowerHas(Before(Before(term, ':'), '='), '/');
      NoSlash();
    } else if Delimiter(term) == Some(':') {
      BeforeAt(term, ':', |Name(term)|);
    } else if Delimiter(term) == Some('=') {
      BeforeAt(term, '=', |Name(term)|);
    }
  }

  lemma BeforeAt(s: string, c: char, n: nat)
    requires n < |s| && s[n] == c && c !in s[..n]
    ensures c in s && After(s, c) == s[n + 1..]
  {
    assert s == s[..n] + [c] + s[n + 1..];
    BeforeUnique(s[..n], c, s[n + 1..]);
  }

  /** On the terms that the validator reads, the standard's count is the validator's. */
  lemma ValidatorCountsByTheStandard(ip: SpfRecord.Ip, raw: string)
    requires SpfRecord.ReadTerm(ip, raw).Success?
    ensures Qualified(raw) && StandardCost(raw) == SpfRecord.Cost(SpfRecord.ReadTerm(ip, raw).value)
  {
    var term := SpfRecord.Bare(raw);
    if '=' in term {
      ReadModifier(ip, raw);
      ModifierName(term);
    } else {
      ReadMechanism(ip, raw);
      MechanismNamed(ip, term);
    }
  }

  lemma ReadModifier(ip: SpfRecord.Ip, raw: string)
    requires SpfRecord.ReadTerm(ip, raw).Success? && '=' in SpfRecord.Bare(raw)
    ensures var name := Before(SpfRecord.Bare(raw), '=');
            && SpfRecord.IsModifierName(name)
            && SpfRecord.ReadTerm(ip, raw).value == SpfRecord.Term(Some(Lower(name)), Lower(name) == "redirect")
  {
  }

  lemma ReadMechanism(ip: SpfRecord.Ip, raw: string)
    requires SpfRecord.ReadTerm(ip, raw).Success? && '=' !in SpfRecord.Bare(raw)
    ensures SpfRecord.Bare(raw) != "" && SpfRecord.CheckMechanism(ip, SpfRecord.Bare(raw)).None?
    ensures SpfRecord.ReadTerm(ip, raw).value
         == SpfRecord.Term(None, SpfRecord.MechanismName(SpfRecord.Bare(raw)) in QUERIES)
  {
  }

  lemma ModifierName(term: string)
    requires '=' in term && SpfRecord.IsModifierName(Before(term, '='))
    ensures Name(term) == Before(term, '=') && Delimiter(term) == Some('=') && !SpfRecord.IsQualifier(term[0])
  {
    NameEnds(term);
    NameCharacters(Before(term, '='));
    SameStop(term, Name(term), Before(term, '='), {':', '/', '='});
  }

  lemma NameCharacters(name: string)
    requires SpfRecord.IsModifierName(name)
    ensures !SpfRecord.IsQualifier(name[0]) && forall i | 0 <= i < |name| :: name[i] !in {':', '/', '='}
  {
    assert forall i | 1 <= i < |name| :: name[i] in name[1..];
  }

  lemma MechanismNamed(ip: SpfRecord.Ip, term: string)
    requires term != "" && '=' !in term && SpfRecord.CheckMechanism(ip, term).None?
    ensures Lower(Name(term)) == SpfRecord.MechanismName(term) && Delimiter(term) != Some('=')
    ensures !SpfRecord.IsQualifier(term[0])
  {
    KnownMechanism(ip, term);
    StartsUnqualified(term, SpfRecord.MechanismName(term));
  }

  lemma KnownMechanism(ip: SpfRecord.Ip, term: string)
    requires SpfRecord.CheckMechanism(ip, term).None?
    ensures SpfRecord.MechanismName(term) in QUERIES + {"all", "ip4", "ip6"}
  {
  }

  lemma StartsUnqualified(term: string, name: string)
    requires term != "" && '=' !in term && name == SpfRecord.MechanismName(term)
    requires name in QUERIES + {"all", "ip4", "ip6"}
    ensures Lower(Name(term)) == name && Delimiter(term) != Some('=') && !SpfRecord.IsQualifier(term[0])
  {
    NameEnds(term);
    LettersFirst(name);
    assert Name(term)[0] == term[0] && name[0] == LowerChar(term[0]);
  }

  lemma LettersFirst(name: string)
    requires name in QUERIES + {"all", "ip4", "ip6"}
    ensures name != "" && 'a' <= name[0] <= 'z'
  {
  }

  // ---------------------------------------------------------------- records and trees

  function Sum(terms: seq<string>, cost: string -> nat): nat {
    if terms == [] then 0 else Sum(terms[..|terms| - 1], cost) + cost(terms[|terms| - 1])
  }

  /** The cost of all terms of a record and of the records of its expansion. */
  ghost function Total(record: string, f: Forest, cost: string -> nat): nat {
    Sum(Terms(record), cost) + TreeSum(f, cost)
  }

  ghost function TreeSum(f: Forest, cost: string -> nat): nat {
    match f
    case Nil => 0
    case Node(_, record, kids, rest) => Sum(Terms(record), cost) + TreeSum(kids, cost) + TreeSum(rest, cost)
  }

  predicate AllTerms(terms: seq<string>, p: string -> bool) {
    forall term <- terms :: p(term)
  }

  ghost predicate TreeTerms(f: Forest, p: string -> bool) {
    match f
    case Nil => true
    case Node(_, record, kids, rest) => AllTerms(Terms(record), p) && TreeTerms(kids, p) && TreeTerms(rest, p)
  }

  ghost predicate WholeTerms(record: string, f: Forest, p: string -> bool) {
    AllTerms(Terms(record), p) && TreeTerms(f, p)
  }

  lemma EarlierTerms(terms: seq<string>, p: string -> bool)
    requires terms != [] && AllTerms(terms, p)
    ensures AllTerms(terms[..|terms| - 1], p) && p(terms[|terms| - 1])
  {
    assert terms[|terms| - 1] in terms;
    assert forall term <- terms[..|terms| - 1] :: term in terms;
  }

  lemma {:induction false} TermsCost(terms: seq<string>)
    requires AllTerms(terms, Qualified)
    ensures LookupsOf(terms) + Sum(terms, SlashedCost) == Sum(terms, StandardCost) + Sum(terms, MisnamedCost)
  {
    if terms != [] {
      EarlierTerms(terms, Qualified);
      TermsCost(terms[..|terms| - 1]);
      TermCost(terms[|terms| - 1]);
    }
  }

  lemma {:induction false} TreeCost(f: Forest)
    requires TreeTerms(f, Qualified)
    ensures Lookups(f) + TreeSum(f, SlashedCost) == TreeSum(f, StandardCost) + TreeSum(f, MisnamedCost)
  {
    if f.Node? {
      TermsCost(Terms(f.record));
      TreeCost(f.kids);
      TreeCost(f.rest);
    }
  }

  function TargetsByStandard(terms: seq<string>): seq<string> {
    if terms == [] then []
    else TargetsByStandard(terms[..|terms| - 1]) + StandardTargets(terms[|terms| - 1])
  }

  function StandardNested(record: string): seq<string> {
    TargetsByStandard(Terms(record))
  }

  /** The expansion of the domains `ns` by the standard's reading of terms. */
  ghost predicate IsStandardExpansion(dns: Dns, ns: seq<string>, f: Forest)
    decreases f
  {
    match f
    case Nil => ns == []
    case Node(domain, record, kids, rest) =>
      && ns != []
      && dns.safe(ns[0]) == Some(domain)
      && SpfRecords(dns, domain) == [record]
      && IsStandardExpansion(dns, StandardNested(record), kids)
      && IsStandardExpansion(dns, ns[1..], rest)
  }

  /** At most one qualifier, and not diverted. */
  predicate Straight(raw: string) {
    Qualified(raw) && !Diverted(raw)
  }

  lemma {:induction false} NestedAgree(terms: seq<string>)
    requires AllTerms(terms, Straight)
    ensures TargetsOf(terms) == TargetsByStandard(terms)
  {
    if terms != [] {
      EarlierTerms(terms, Straight);
      NestedAgree(terms[..|terms| - 1]);
      TargetsAgreeIff(terms[|terms| - 1]);
    }
  }

  /** Without diverted terms the check walks the standard's tree. */
  lemma {:induction false} ExpansionsAgree(dns: Dns, ns: seq<string>, f: Forest)
    requires TreeTerms(f, Straight)
    ensures IsExpansion(dns, ns, f) <==> IsStandardExpansion(dns, ns, f)
    decreases f
  {
    if f.Node? {
      NestedAgree(Terms(f.record));
      ExpansionsAgree(dns, Nested(f.record), f.kids);
      if ns != [] {
        ExpansionsAgree(dns, ns[1..], f.rest);
      }
    }
  }

  // ---------------------------------------------------------------- the verdict and the standard's limit

  /** The verdict in the terms that the standard counts, over the tree that the check walks. */
  lemma PassIffCounted(dns: Dns, record: string, root: string, f: Forest)
    requires IsExpansion(dns, Nested(record), f) && WholeTerms(record, f, Qualified)
    ensures Passes(dns, record, root) <==>
              && Total(record, f, StandardCost) + Total(record, f, MisnamedCost)
                   <= LOOKUP_LIMIT + Total(record, f, SlashedCost)
              && WellShaped(root, f)
  {
    PassIffShaped(dns, record, root, f);
    TermsCost(Terms(record));
    TreeCost(f);
  }

  /** Where no term is diverted, so that the tree is the standard's: the check passes a record over the limit exactly
      where slashed terms hide the excess, and flags one within the limit exactly where the tree is too deep or repeats
      a domain, or misnamed terms exceed what is left. */
  lemma DisagreesIff(dns: Dns, record: string, root: string, f: Forest)
    requires IsStandardExpansion(dns, StandardNested(record), f) && WholeTerms(record, f, Straight)
    ensures var count, slashed, misnamed := Total(record, f, StandardCost), Total(record, f, SlashedCost),
                                            Total(record, f, MisnamedCost);
            && (Passes(dns, record, root) && count > LOOKUP_LIMIT <==>
                  WellShaped(root, f) && LOOKUP_LIMIT < count <= LOOKUP_LIMIT + slashed - misnamed)
            && (!Passes(dns, record, root) && count <= LOOKUP_LIMIT <==>
                  count <= LOOKUP_LIMIT && (!WellShaped(root, f) || count + misnamed > LOOKUP_LIMIT + slashed))
  {
    NestedAgree(Terms(record));
    ExpansionsAgree(dns, Nested(record), f);
    StraightQualified(f);
    PassIffCounted(dns, record, root, f);
  }

  lemma {:induction false} StraightQualified(f: Forest)
    requires TreeTerms(f, Straight)
    ensures TreeTerms(f, Qualified)
  {
    if f.Node? {
      StraightQualified(f.kids);
      StraightQualified(f.rest);
    }
  }

  /** Where every name has its value or modifier value behind it, and the tree has the shape that the check asks for,
      the verdict is the standard's limit. */
  lemma PassIffStandard(dns: Dns, record: string, root: string, f: Forest)
    requires IsStandardExpansion(dns, StandardNested(record), f) && WholeTerms(record, f, Straight)
    requires Total(record, f, SlashedCost) == Total(record, f, MisnamedCost) == 0
    ensures Passes(dns, record, root) <==> Total(record, f, StandardCost) <= LOOKUP_LIMIT && WellShaped(root, f)
  {
    DisagreesIff(dns, record, root, f);
  }

  // ---------------------------------------------------------------- records on both sides

  const VERSION: string := "v=spf1"

  function Repeated(term: string, n: nat): (r: seq<string>)
    ensures |r| == n
  {
    if n == 0 then [] else Repeated(term, n - 1) + [term]
  }

  function RecordOf(terms: seq<string>): string {
    Join([VERSION] + terms)
  }

  lemma {:induction false} RepeatedMembers(term: string, n: nat)
    ensures forall t <- Repeated(term, n) :: t == term
  {
    if n > 0 {
      RepeatedMembers(term, n - 1);
    }
  }

  lemma RepeatedNext(term: string, n: nat)
    ensures Repeated(term, n + 1)[..n] == Repeated(term, n) && Repeated(term, n + 1)[n] == term
  {
  }

  lemma {:induction false} RepeatedSum(term: string, n: nat, cost: string -> nat)
    ensures Sum(Repeated(term, n), cost) == n * cost(term)
  {
    if n > 0 {
      RepeatedSum(term, n - 1, cost);
      RepeatedNext(term, n - 1);
      NextMultiple(n - 1, cost(term));
    }
  }

  lemma RecordTerms(terms: seq<string>)
    requires AllWords(terms)
    ensures Terms(RecordOf(terms)) == terms
  {
    assert IsWord(VERSION);
    SplitJoin([VERSION] + terms);
  }

  lemma {:induction false} NoTargets(term: string, n: nat)
    requires TermTargets(term) == []
    ensures TargetsOf(Repeated(term, n)) == []
  {
    if n > 0 {
      NoTargets(term, n - 1);
      RepeatedNext(term, n - 1);
    }
  }

  /** A record that repeats one term without a domain passes just when the term's count by the check does. */
  lemma RepeatedPasses(dns: Dns, root: string, term: string, n: nat)
    requires IsWord(term) && Qualified(term) && TermTargets(term) == []
    ensures var record := RecordOf(Repeated(term, n));
            && Terms(record) == Repeated(term, n)
            && (Passes(dns, record, root) <==> n * TermLookups(term) <= LOOKUP_LIMIT)
            && IsExpansion(dns, Nested(record), Nil)
            && Total(record, Nil, StandardCost) == n * StandardCost(term)
  {
    var terms := Repeated(term, n);
    RepeatedMembers(term, n);
    RepeatedSum(term, n, StandardCost);
    RepeatedSum(term, n, TermLookups);
    RecordTerms(terms);
    NoTargets(term, n);
    LookupsSum(terms);
    assert NoDup([root] + Domains(Nil));
    PassIffShaped(dns, RecordOf(terms), root, Nil);
  }

  lemma {:induction false} LookupsSum(terms: seq<string>)
    ensures LookupsOf(terms) == Sum(terms, TermLookups)
  {
    if terms != [] {
      LookupsSum(terms[..|terms| - 1]);
    }
  }

  /** A term named `a`. */
  lemma AddressTerm(term: string)
    requires |term| > 1 && term[0] == 'a' && term[1] in {':', '/', '='}
    ensures SpfRecord.Bare(term) == term && Qualified(term)
    ensures Lower(Name(term)) == "a" && Delimiter(term) == Some(term[1])
  {
    NamedAt(term, 1);
    assert term[..1] == "a";
    assert Lower("a") == "a";
  }

  lemma SlashedTerm()
    ensures IsWord("a/24") && Qualified("a/24") && Slashed("a/24") && StandardCost("a/24") == 1
    ensures TermLookups("a/24") == 0 && TermTargets("a/24") == []
  {
    AddressTerm("a/24");
    TermCost("a/24");
    TargetsAgreeIff("a/24");
  }

  lemma MisnamedTerm()
    ensures IsWord("a=x") && Qualified("a=x") && Misnamed("a=x") && StandardCost("a=x") == 0
    ensures TermLookups("a=x") == 1 && TermTargets("a=x") == []
  {
    AddressTerm("a=x");
    TermCost("a=x");
    TargetsAgreeIff("a=x");
  }

  lemma NamedAt(term: string, n: nat)
    requires n < |term| && term[n] in {':', '/', '='} && forall i | 0 <= i < n :: term[i] !in {':', '/', '='}
    ensures Name(term) == term[..n] && Delimiter(term) == Some(term[n])
  {
    NameEnds(term);
    SameStop(term, Name(term), term[..n], {':', '/', '='});
  }

  /** Any number of `a/24`, of which the standard counts every one, passes whatever the DNS holds. */
  lemma SlashedPasses(dns: Dns, root: string, n: nat)
    ensures var record := RecordOf(Repeated("a/24", n));
            Passes(dns, record, root) && Total(record, Nil, StandardCost) == n
  {
    SlashedTerm();
    RepeatedPasses(dns, root, "a/24", n);
  }

  /** Eleven modifiers `a=x`, of which the standard counts none, are flagged whatever the DNS holds. */
  lemma MisnamedFlagged(dns: Dns, root: string)
    ensures var record := RecordOf(Repeated("a=x", 11));
            !Passes(dns, record, root) && Total(record, Nil, StandardCost) == 0
  {
    MisnamedTerm();
    RepeatedPasses(dns, root, "a=x", 11);
  }
}
