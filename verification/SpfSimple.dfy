/** Which records the drift comparison treats as sets, and what that means for the records the domain service
    recommends. */
module SpfSimple {
  import opened Wrappers
  import opened Text
  import opened SpfRecord
  import opened SpfSemantics
  import opened SpfGenerated
  import SpfStandard

  // ---------------------------------------------------------------- which records are simple

  /** Named `a` or `mx`, after at most one `+`, and with nothing or a `:` behind the name. */
  predicate PlainTerm(token: string) {
    var term := if token != "" && token[0] == '+' then token[1..] else token;
    SpfStandard.Name(term) in {"a", "mx"} && SpfStandard.Delimiter(term) in {None, Some(':')}
  }

  lemma NamedWhole(term: string)
    requires forall i | 0 <= i < |term| :: term[i] !in {':', '/', '='}
    ensures SpfStandard.Name(term) == term && SpfStandard.Delimiter(term) == None
  {
    SpfStandard.NameEnds(term);
    SpfStandard.SameStop(term, SpfStandard.Name(term), term, {':', '/', '='});
  }

  lemma NamedUpTo(term: string, name: string)
    requires StartsWith(term, name + ":") && forall i | 0 <= i < |name| :: name[i] !in {':', '/', '='}
    ensures SpfStandard.Name(term) == name && SpfStandard.Delimiter(term) == Some(':')
  {
    assert term[..|name|] == name && term[|name|] == (name + ":")[|name|];
    SpfStandard.NamedAt(term, |name|);
  }

  lemma NameBehind(term: string, name: string)
    requires SpfStandard.Name(term) == name && SpfStandard.Delimiter(term) in {None, Some(':')}
    ensures term == name || StartsWith(term, name + ":")
  {
    SpfStandard.NameEnds(term);
    if |name| < |term| {
      assert term[..|name| + 1] == name + ":";
    }
  }

  lemma SimpleTermIff(token: string)
    ensures IsSimple(token) <==> PlainTerm(token)
  {
    var m := Unsigned(token);
    PlusFirst(token);
    if m == "mx" || m == "a" {
      NamedWhole(m);
    } else if StartsWith(m, "mx:") {
      NamedUpTo(m, "mx");
    } else if StartsWith(m, "a:") {
      NamedUpTo(m, "a");
    } else if PlainTerm(token) {
      NameBehind(m, SpfStandard.Name(m));
    }
  }

  lemma PlusFirst(token: string)
    ensures Unsigned(token) == if token != "" && token[0] == '+' then token[1..] else token
  {
    if token != "" && token[0] == '+' {
      assert token[..1] == "+";
    }
  }

  /** A version, a terminal `-all` or `~all`, and only plain terms between them. */
  predicate PlainRecord(tokens: seq<string>) {
    && |tokens| >= 2 && tokens[0] == "v=spf1" && tokens[|tokens| - 1] in {"-all", "~all"}
    && forall i | 0 < i < |tokens| - 1 :: PlainTerm(tokens[i])
  }

  /** These are the simple records. */
  lemma SimpleIff(tokens: seq<string>)
    ensures SimpleParts(tokens).Some? <==> PlainRecord(tokens)
  {
    if |tokens| >= 2 {
      forall i | 0 < i < |tokens| - 1
        ensures IsSimple(tokens[i]) <==> PlainTerm(tokens[i])
        ensures tokens[i] in Middle(tokens)
      {
        SimpleTermIff(tokens[i]);
        InMiddle(tokens, i);
      }
      assert forall token <- Middle(tokens) :: exists i :: 0 < i < |tokens| - 1 && tokens[i] == token by {
        assert forall k | 0 <= k < |Middle(tokens)| :: Middle(tokens)[k] == tokens[k + 1];
      }
    }
  }

  /** Any other record is compared as ordered text. */
  lemma OtherwiseTextual(ip: Ip, e: seq<string>, c: seq<string>)
    requires !PlainRecord(e) || !PlainRecord(c)
    ensures TokensMatch(ip, e, c) <==> ValidateTokens(ip, e) == None && ValidateTokens(ip, c) == None && e == c
  {
    SimpleIff(e);
    SimpleIff(c);
  }

  // ---------------------------------------------------------------- the order of plain terms

  function Enclosed(terms: seq<string>, terminal: string): seq<string> {
    ["v=spf1"] + terms + [terminal]
  }

  ghost predicate ReadablePlain(ip: Ip, terms: seq<string>) {
    forall token <- terms :: PlainTerm(token) && ReadTerm(ip, token).Success?
  }

  lemma PlainRead(ip: Ip, token: string)
    requires PlainTerm(token) && ReadTerm(ip, token).Success?
    ensures ReadTerm(ip, token) == Success(Term(None, true))
  {
    SimpleTermIff(token);
    SimpleIsMechanism(ip, token);
    SimpleBare(token);
    PlusFirst(token);
    SpfStandard.ValidatorCountsByTheStandard(ip, token);
    ShortNames();
    PlainMechanism(ip, token);
  }

  lemma ShortNames()
    ensures Lower("a") == "a" && Lower("mx") == "mx"
  {
  }

  lemma PlainMechanism(ip: Ip, token: string)
    requires '=' !in Bare(token) && ReadTerm(ip, token).Success?
    ensures ReadTerm(ip, token).value.modifier == None
  {
  }

  lemma {:induction false} PlainLookups(ip: Ip, terms: seq<string>)
    requires ReadablePlain(ip, terms)
    ensures AllReadable(ReaderOf(ip), terms) && LookupTerms(ReaderOf(ip), terms) == |terms|
    ensures forall i | 0 <= i < |terms| :: ModifierAt(ReaderOf(ip), terms, i) == None
  {
    forall i | 0 <= i < |terms|
      ensures ReaderOf(ip)(terms[i]) == Success(Term(None, true))
    {
      PlainRead(ip, terms[i]);
    }
    if terms != [] {
      assert forall token <- terms[1..] :: token in terms;
      PlainLookups(ip, terms[1..]);
    }
  }

  /** A plain record is valid just when its terms are well formed and there are at most ten of them. */
  lemma PlainValidIff(ip: Ip, terms: seq<string>, terminal: string)
    requires terminal in {"-all", "~all"} && forall token <- terms :: PlainTerm(token)
    ensures ValidateTokens(ip, Enclosed(terms, terminal)) == None <==> ReadablePlain(ip, terms) && |terms| <= 10
  {
    EnclosedChecked(ip, terms, terminal);
    CheckTermsIff(ReaderOf(ip), terms + [terminal], 0, {});
    if ReadablePlain(ip, terms) {
      ReadAll(ip, terminal);
      PlainLookups(ip, terms);
      TerminalLast(ReaderOf(ip), terms, terminal);
    } else {
      UnreadableTerm(ip, terms, terminal);
    }
  }

  lemma UnreadableTerm(ip: Ip, terms: seq<string>, terminal: string)
    requires !ReadablePlain(ip, terms) && forall token <- terms :: PlainTerm(token)
    ensures !AllReadable(ReaderOf(ip), terms + [terminal])
  {
    var token :| token in terms && ReadTerm(ip, token).Failure?;
    var i :| 0 <= i < |terms| && terms[i] == token;
    assert (terms + [terminal])[i] == token && ReaderOf(ip)(token).Failure?;
  }

  lemma EnclosedChecked(ip: Ip, terms: seq<string>, terminal: string)
    ensures ValidateTokens(ip, Enclosed(terms, terminal)) == CheckTerms(ReaderOf(ip), terms + [terminal], 0, {})
  {
    EnclosedTail(terms, terminal);
    VersionLower();
  }

  lemma VersionLower()
    ensures Lower("v=spf1") == "v=spf1"
  {
  }

  lemma EnclosedTail(terms: seq<string>, terminal: string)
    ensures Enclosed(terms, terminal)[1..] == terms + [terminal]
  {
  }

  lemma TerminalLast(read: Reader, terms: seq<string>, terminal: string)
    requires AllReadable(read, terms) && forall i | 0 <= i < |terms| :: ModifierAt(read, terms, i) == None
    requires read(terminal) == Success(Term(None, false))
    ensures var all := terms + [terminal];
            && AllReadable(read, all) && ModifiersDistinct(read, all, {})
            && LookupTerms(read, all) == LookupTerms(read, terms)
  {
    var all := terms + [terminal];
    forall i | 0 <= i < |all|
      ensures read(all[i]).Success? && read(all[i]).value.modifier == None
    {
      if i < |terms| {
        assert ModifierAt(read, terms, i) == None;
      }
    }
    NoModifiers(read, all);
    LookupTermsConcat(read, terms, [terminal]);
    OneFreeTerm(read, terminal);
  }

  lemma NoModifiers(read: Reader, all: seq<string>)
    requires AllReadable(read, all) && forall i | 0 <= i < |all| :: read(all[i]).value.modifier == None
    ensures ModifiersDistinct(read, all, {})
  {
  }

  lemma OneFreeTerm(read: Reader, terminal: string)
    requires read(terminal) == Success(Term(None, false))
    ensures LookupTerms(read, [terminal]) == 0
  {
    assert [terminal][1..] == [];
  }

  lemma SameMembers(terms: seq<string>, other: seq<string>)
    requires multiset(terms) == multiset(other)
    ensures |terms| == |other| && forall token :: token in terms <==> token in other
  {
    forall token
      ensures token in terms <==> token in other
    {
      assert token in multiset(terms) <==> token in multiset(other);
    }
    assert |multiset(terms)| == |multiset(other)|;
  }

  lemma EnclosedParts(terms: seq<string>, terminal: string)
    requires terminal in {"-all", "~all"} && forall token <- terms :: PlainTerm(token)
    ensures SimpleParts(Enclosed(terms, terminal)) == Some(Parts(CanonicalSet(terms), terminal))
  {
    var tokens := Enclosed(terms, terminal);
    assert Middle(tokens) == terms;
    forall token <- terms
      ensures IsSimple(token)
    {
      SimpleTermIff(token);
    }
  }

  /** The terms of a valid plain record may stand in any order. */
  lemma OrderDoesNotMatter(ip: Ip, terms: seq<string>, other: seq<string>, terminal: string)
    requires terminal in {"-all", "~all"} && (forall token <- terms :: PlainTerm(token))
    requires ValidateTokens(ip, Enclosed(terms, terminal)) == None && multiset(terms) == multiset(other)
    ensures TokensMatch(ip, Enclosed(terms, terminal), Enclosed(other, terminal))
  {
    SameMembers(terms, other);
    PlainValidIff(ip, terms, terminal);
    PlainValidIff(ip, other, terminal);
    EnclosedParts(terms, terminal);
    EnclosedParts(other, terminal);
    assert CanonicalSet(terms) == CanonicalSet(other);
  }

  // ---------------------------------------------------------------- the recommended records

  lemma HostTermPlain(host: string)
    ensures PlainTerm("a:" + host)
  {
    NamedUpTo("a:" + host, "a");
    assert ("a:" + host)[0] == 'a';
  }

  lemma MxPlain()
    ensures PlainTerm("mx")
  {
    NamedWhole("mx");
  }

  lemma LoweredHosts(ip: Ip, relays: seq<string>)
    requires forall i | 0 <= i < |relays| :: ip.address(relays[i]).None?
    ensures forall token <- LowerAll(MechanismsFor(ip, relays)) :: PlainTerm(token)
  {
    MechanismsAt(ip, relays);
    Literals();
    forall i | 0 <= i < |relays|
      ensures PlainTerm(LowerAll(MechanismsFor(ip, relays))[i])
    {
      LowerConcat("a:", relays[i]);
      HostTermPlain(Lower(relays[i]));
    }
  }

  lemma FrameEnclosed(middle: seq<string>, terminal: string)
    ensures Frame(middle, terminal) == Enclosed(["mx"] + middle, terminal)
  {
  }

  /** The recommended record for up to nine host relays matches however a domain orders its terms. */
  lemma ReorderedRelaysMatch(ip: Ip, hostname: string, relays: seq<string>, published: string, other: seq<string>)
    requires relays != [] && |relays| <= 9
    requires forall i | 0 <= i < |relays| :: ip.address(relays[i]).None? && IsName(relays[i])
    requires multiset(other) == multiset(["mx"] + LowerAll(MechanismsFor(ip, relays)))
    requires Tokens(published) == Enclosed(other, "-all")
    ensures SpfMatches(ip, SpfExpected(ip, hostname, relays), published)
  {
    var record, middle := SpfExpected(ip, hostname, relays), MechanismsFor(ip, relays);
    var terms := ["mx"] + LowerAll(middle);
    RelayMechanisms(ip, relays);
    RecordText(ip, hostname, relays);
    FrameTokens(record, middle, "-all");
    FrameEnclosed(LowerAll(middle), "-all");
    RelayTerms(ip, relays);
    OrderDoesNotMatter(ip, terms, other, "-all");
    MatchesByTokens(ip, record, published);
  }

  lemma RelayTerms(ip: Ip, relays: seq<string>)
    requires |relays| <= 9 && forall i | 0 <= i < |relays| :: ip.address(relays[i]).None? && IsName(relays[i])
    ensures var terms := ["mx"] + LowerAll(MechanismsFor(ip, relays));
            ValidateTokens(ip, Enclosed(terms, "-all")) == None && forall token <- terms :: PlainTerm(token)
  {
    RelayMechanisms(ip, relays);
    FrameEnclosed(LowerAll(MechanismsFor(ip, relays)), "-all");
    HostsOnly(ip, relays);
    FrameVerdict(ip, LowerAll(MechanismsFor(ip, relays)), "-all", relays);
    LoweredHosts(ip, relays);
    MxPlain();
  }

  lemma {:induction false} HostsOnly(ip: Ip, relays: seq<string>)
    requires forall i | 0 <= i < |relays| :: ip.address(relays[i]).None?
    ensures HostRelays(ip, relays) == |relays|
  {
    if relays != [] {
      HostsOnly(ip, relays[..|relays| - 1]);
    }
  }

  /** With an address relay the recommended record is no plain one, and only its own tokens in its own order match. */
  lemma AddressRelaysTextual(ip: Ip, hostname: string, relays: seq<string>, published: string, k: nat)
    requires (forall i | 0 <= i < |relays| :: IsRelay(ip, relays[i])) && HostRelays(ip, relays) <= 9
    requires k < |relays| && ip.address(relays[k]).Some?
    ensures SpfMatches(ip, SpfExpected(ip, hostname, relays), published) <==>
            Tokens(published) == Tokens(SpfExpected(ip, hostname, relays))
  {
    var record, middle := SpfExpected(ip, hostname, relays), MechanismsFor(ip, relays);
    RelayMechanisms(ip, relays);
    RecordText(ip, hostname, relays);
    FrameTokens(record, middle, "-all");
    FrameVerdict(ip, LowerAll(middle), "-all", relays);
    AddressInFrame(ip, relays, k);
    OtherwiseTextual(ip, Frame(LowerAll(middle), "-all"), Tokens(published));
    MatchesByTokens(ip, record, published);
  }

  lemma AddressInFrame(ip: Ip, relays: seq<string>, k: nat)
    requires k < |relays| && ip.address(relays[k]).Some?
    ensures !PlainRecord(Frame(LowerAll(MechanismsFor(ip, relays)), "-all"))
  {
    MechanismsAt(ip, relays);
    AddressNotPlain(ip.address(relays[k]).value);
    assert Frame(LowerAll(MechanismsFor(ip, relays)), "-all")[k + 2] == Lower(MechanismFor(ip, relays[k]));
  }

  lemma AddressNotPlain(address: Address)
    ensures !PlainTerm(Lower(Family(address.version) + ":" + address.text))
  {
    FamilyName(address.version, address.text);
    var term := Family(address.version) + ":" + Lower(address.text);
    assert term[0] == 'i';
    NamedUpTo(term, Family(address.version));
  }

  /** Without relays, a valid plain record matches the recommendation just when it names `mx`. */
  lemma FallbackMatchIff(ip: Ip, hostname: string, published: string)
    requires IsName(hostname) && ValidateTokens(ip, Tokens(published)) == None && PlainRecord(Tokens(published))
    ensures SpfMatches(ip, SpfExpected(ip, hostname, []), published) <==>
            exists i :: 0 < i < |Tokens(published)| - 1 && Tokens(published)[i] in {"mx", "+mx"}
  {
    var record, e, c := SpfExpected(ip, hostname, []), Frame(["a:" + Lower(hostname)], "~all"), Tokens(published);
    FallbackTokens(ip, hostname);
    LowerKeepsName(hostname);
    FallbackVerdict(ip, Lower(hostname));
    MatchesByTokens(ip, record, published);
    FallbackParts(Lower(hostname));
    NamesMxIff(c);
    MxRequired(ip, e, c);
  }

  lemma MxRequired(ip: Ip, e: seq<string>, c: seq<string>)
    requires ValidateTokens(ip, e) == None && ValidateTokens(ip, c) == None
    requires SimpleParts(e).Some? && SimpleParts(c).Some?
    requires Required(SimpleParts(e).value) == {"mx"} && SimpleParts(e).value.terminal == "~all"
    ensures TokensMatch(ip, e, c) <==> "mx" in SimpleParts(c).value.mechanisms
  {
  }

  lemma NamesMxIff(c: seq<string>)
    requires PlainRecord(c)
    ensures SimpleParts(c).Some?
    ensures "mx" in SimpleParts(c).value.mechanisms <==> exists i :: 0 < i < |c| - 1 && c[i] in {"mx", "+mx"}
  {
    SimpleIff(c);
    assert forall k | 0 <= k < |Middle(c)| :: Middle(c)[k] == c[k + 1];
    MxNamed(Middle(c));
    if i :| 0 < i < |c| - 1 && c[i] in {"mx", "+mx"} {
      InMiddle(c, i);
    }
  }

  lemma FallbackParts(host: string)
    ensures var parts := SimpleParts(Frame(["a:" + host], "~all"));
            parts.Some? && Required(parts.value) == {"mx"} && parts.value.terminal == "~all"
  {
    FrameEnclosed(["a:" + host], "~all");
    assert ["mx"] + ["a:" + host] == ["mx", "a:" + host];
    MxPlain();
    HostTermPlain(host);
    EnclosedParts(["mx", "a:" + host], "~all");
    CanonicalHost(host);
    CanonicalMx("mx");
    PairSet("mx", "a:" + host);
    OnlyMxRequired(Parts({"mx", Canonical("a:" + host)}, "~all"), Canonical("a:" + host));
  }

  lemma PairSet(a: string, b: string)
    ensures CanonicalSet([a, b]) == {Canonical(a), Canonical(b)}
  {
    assert a in [a, b] && b in [a, b];
  }

  lemma OnlyMxRequired(parts: Parts, host: string)
    requires parts == Parts({"mx", host}, "~all") && StartsWith(host, "a:")
    ensures Required(parts) == {"mx"}
  {
    assert "mx"[0] == 'm' && "a:"[0] == 'a';
  }

  lemma CanonicalHost(host: string)
    ensures StartsWith(Canonical("a:" + host), "a:")
  {
    PlusFirst("a:" + host);
    assert ("a:" + host)[0] == 'a';
    StrippedPrefix("a:" + host, 2);
  }

  lemma {:induction false} StrippedPrefix(s: string, n: nat)
    requires 0 < n <= |s| && s[n - 1] != '.'
    ensures s[..n] <= StripRightChar(s, '.')
  {
    if |s| > n && s[|s| - 1] == '.' {
      StrippedPrefix(s[..|s| - 1], n);
    }
  }

  /** Of the plain terms only `mx`, signed or not, has the canonical form `mx`. */
  lemma CanonicalMx(token: string)
    requires PlainTerm(token)
    ensures Canonical(token) == "mx" <==> token in {"mx", "+mx"}
  {
    PlusFirst(token);
    SimpleTermIff(token);
    var m := Unsigned(token);
    if StartsWith(m, "mx:") {
      StrippedPrefix(m, 3);
    } else if StartsWith(m, "a:") {
      StrippedPrefix(m, 2);
    }
    MxSigned(token, m);
  }

  lemma MxSigned(token: string, m: string)
    requires m == if token != "" && token[0] == '+' then token[1..] else token
    ensures token in {"mx", "+mx"} <==> m == "mx"
  {
    if token == "+mx" {
      assert token[1..] == "mx";
    }
    if m == "mx" && token != m {
      assert token == ['+'] + m;
    }
  }

  lemma MxNamed(middle: seq<string>)
    requires forall token <- middle :: PlainTerm(token)
    ensures "mx" in CanonicalSet(middle) <==> exists token :: token in middle && token in {"mx", "+mx"}
  {
    forall token <- middle
      ensures Canonical(token) == "mx" <==> token in {"mx", "+mx"}
    {
      CanonicalMx(token);
    }
  }

  // ---------------------------------------------------------------- whom the recommended records admit

  /** A mechanism without a qualifier and other than `all`. */
  ghost predicate Unqualified(token: string) {
    token != "" && !IsQualifier(token[0]) && token != "all" && token[0] != '+' && '=' !in token
  }

  ghost predicate Admitted(middle: seq<string>, sender: Sender) {
    exists i :: 0 <= i < |middle| && StripRightChar(middle[i], '.') in sender
  }

  lemma {:induction false} EvaluateUnqualified(middle: seq<string>, terminal: string, sender: Sender)
    requires (forall token <- middle :: Unqualified(token)) && terminal in {"-all", "~all"}
    ensures Evaluate(middle + [terminal], sender)
         == if Admitted(middle, sender) then Pass else if terminal == "-all" then Fail else SoftFail
  {
    var terms := middle + [terminal];
    if middle == [] {
      assert Bare(terminal) == "all" && terms[0] == terminal;
    } else {
      assert middle[0] in middle && terms[1..] == middle[1..] + [terminal];
      assert forall token <- middle[1..] :: token in middle;
      EvaluateUnqualified(middle[1..], terminal, sender);
      AdmittedFirst(middle, sender);
    }
  }

  lemma AdmittedFirst(middle: seq<string>, sender: Sender)
    requires middle != []
    ensures Admitted(middle, sender) <==> StripRightChar(middle[0], '.') in sender || Admitted(middle[1..], sender)
  {
    if i :| 0 <= i < |middle[1..]| && StripRightChar(middle[1..][i], '.') in sender {
      assert middle[i + 1] == middle[1..][i];
    }
    if i :| 0 <= i < |middle| && StripRightChar(middle[i], '.') in sender {
      assert i > 0 ==> middle[1..][i - 1] == middle[i];
    }
  }

  /** The mechanism that admits a relay: its host name, or its address in the family of that. */
  function RelayMechanism(ip: Ip, relay: string): string {
    match ip.address(relay)
    case None => "a:" + Lower(relay)
    case Some(address) => (if address.version == 4 then "ip4:" else "ip6:") + Lower(address.text)
  }

  lemma HostUnqualified(host: string)
    requires IsName(host)
    ensures Unqualified("a:" + host)
  {
    var token := "a:" + host;
    assert token[0] == 'a' && token[1] == ':' && "all"[1] == 'l';
  }

  lemma RelayLowered(ip: Ip, relay: string)
    requires IsRelay(ip, relay)
    ensures Lower(MechanismFor(ip, relay)) == RelayMechanism(ip, relay) && Unqualified(RelayMechanism(ip, relay))
  {
    match ip.address(relay)
    case None =>
      Literals();
      LowerConcat("a:", relay);
      LowerKeepsName(relay);
      HostUnqualified(Lower(relay));
    case Some(address) =>
      FamilyName(address.version, address.text);
      assert Family(address.version) + ":" == if address.version == 4 then "ip4:" else "ip6:";
      assert RelayMechanism(ip, relay)[0] == 'i';
  }

  /** The recommended record admits exactly the domain's own mail hosts and its relays, and rejects everybody else. */
  lemma RecommendedAdmits(ip: Ip, hostname: string, relays: seq<string>, sender: Sender)
    requires relays != [] && forall i | 0 <= i < |relays| :: IsRelay(ip, relays[i])
    ensures Verdicts(Tokens(SpfExpected(ip, hostname, relays)), sender) ==
            if "mx" in sender ||
               exists i :: 0 <= i < |relays| && StripRightChar(RelayMechanism(ip, relays[i]), '.') in sender
            then Pass else Fail
  {
    var middle := LowerAll(MechanismsFor(ip, relays));
    RelayMechanisms(ip, relays);
    RecordText(ip, hostname, relays);
    FrameTokens(SpfExpected(ip, hostname, relays), MechanismsFor(ip, relays), "-all");
    FrameEnclosed(middle, "-all");
    RelayTokens(ip, relays);
    VerdictOfFrame(middle, "-all", sender);
  }

  lemma RelayTokens(ip: Ip, relays: seq<string>)
    requires forall i | 0 <= i < |relays| :: IsRelay(ip, relays[i])
    ensures var middle := LowerAll(MechanismsFor(ip, relays));
            && |middle| == |relays|
            && forall i | 0 <= i < |relays| :: middle[i] == RelayMechanism(ip, relays[i]) && Unqualified(middle[i])
  {
    MechanismsAt(ip, relays);
    forall i | 0 <= i < |relays|
      ensures Lower(MechanismFor(ip, relays[i])) == RelayMechanism(ip, relays[i])
      ensures Unqualified(RelayMechanism(ip, relays[i]))
    {
      RelayLowered(ip, relays[i]);
    }
  }

  lemma VerdictOfFrame(middle: seq<string>, terminal: string, sender: Sender)
    requires (forall i | 0 <= i < |middle| :: Unqualified(middle[i])) && terminal in {"-all", "~all"}
    ensures Verdicts(Frame(middle, terminal), sender) ==
            if "mx" in sender || Admitted(middle, sender) then Pass else if terminal == "-all" then Fail else SoftFail
  {
    var terms := ["mx"] + middle;
    FrameEnclosed(middle, terminal);
    EnclosedTail(terms, terminal);
    assert Unqualified("mx") && StripRightChar("mx", '.') == "mx";
    EvaluateUnqualified(terms, terminal, sender);
    AdmittedFirst(terms, sender);
    assert terms[1..] == middle;
  }

  /** Without relays it admits the mail hosts and the server's own name, and only warns about everybody else. */
  lemma FallbackAdmits(ip: Ip, hostname: string, sender: Sender)
    requires IsName(hostname)
    ensures Verdicts(Tokens(SpfExpected(ip, hostname, [])), sender) ==
            if "mx" in sender || StripRightChar("a:" + Lower(hostname), '.') in sender then Pass else SoftFail
  {
    FallbackTokens(ip, hostname);
    LowerKeepsName(hostname);
    var middle := ["a:" + Lower(hostname)];
    HostUnqualified(Lower(hostname));
    VerdictOfFrame(middle, "~all", sender);
    AdmittedFirst(middle, sender);
    assert middle[1..] == [];
  }
}
