/** First-match evaluation of SPF records (section 4.6.2 of RFC 7208) over an abstract sender, and what the
    drift comparison means for it. */
module SpfSemantics {
  import opened Wrappers
  import opened Text
  import opened SpfRecord

  /** A sender is the set of mechanisms, in canonical spelling, that match it. */
  type Sender = iset<string>

  datatype Verdict = Pass | Neutral | SoftFail | Fail

  function Rank(v: Verdict): nat {
    match v
    case Pass => 0
    case Neutral => 1
    case SoftFail => 2
    case Fail => 3
  }

  function QualifierVerdict(term: string): Verdict {
    if term == "" then Pass
    else match term[0]
      case '-' => Fail
      case '~' => SoftFail
      case '?' => Neutral
      case _ => Pass
  }

  /** Modifiers match nothing and `all` matches everyone; trailing dots of a name do not matter. */
  ghost predicate TermMatches(term: string, sender: Sender) {
    var m := Bare(term);
    '=' !in m && (m == "all" || StripRightChar(m, '.') in sender)
  }

  /** The first matching term decides; a record without one is neutral. */
  ghost function Evaluate(terms: seq<string>, sender: Sender): Verdict {
    if terms == [] then Neutral
    else if TermMatches(terms[0], sender) then QualifierVerdict(terms[0])
    else Evaluate(terms[1..], sender)
  }

  ghost predicate Matches(mechanisms: set<string>, sender: Sender) {
    exists m :: m in mechanisms && m in sender
  }

  ghost function EvaluateParts(parts: Parts, sender: Sender): Verdict {
    if Matches(parts.mechanisms, sender) then Pass else QualifierVerdict(parts.terminal)
  }

  /** Middle terms of a valid simple record: plain `mx` and `a` mechanisms, none of them a modifier. */
  ghost predicate PlainMiddle(middle: seq<string>) {
    AllSimple(middle) && forall token <- middle :: '=' !in token
  }

  /** The set form of a simple record evaluates like the ordered record. */
  lemma {:induction false} EvaluateSimple(middle: seq<string>, terminal: string, sender: Sender)
    requires PlainMiddle(middle) && terminal in {"-all", "~all"}
    ensures Evaluate(middle + [terminal], sender)
         == EvaluateParts(Parts(CanonicalSet(middle), terminal), sender)
  {
    var terms := middle + [terminal];
    if middle == [] {
      assert Bare(terminal) == "all";
      assert CanonicalSet(middle) == {};
      assert terms[0] == terminal;
    } else {
      var token := middle[0];
      assert token in middle;
      SimpleBare(token);
      assert terms[1..] == middle[1..] + [terminal];
      EvaluateSimple(middle[1..], terminal, sender);
      CanonicalSetCons(middle);
    }
  }

  lemma SimpleBare(token: string)
    requires IsSimple(token) && '=' !in token
    ensures Bare(token) == Unsigned(token) && Bare(token) != "all" && QualifierVerdict(token) == Pass
    ensures '=' !in Bare(token)
  {
    assert Unsigned(token) != "" && (Unsigned(token)[0] == 'm' || |Unsigned(token)| == 1 || Unsigned(token)[1] == ':');
    assert !IsQualifier('m') && !IsQualifier('a');
    assert token[0] == 'm' || token[0] == 'a' || token[0] == '+';
    assert "all"[1] == 'l';
  }

  lemma CanonicalSetCons(middle: seq<string>)
    requires middle != []
    ensures CanonicalSet(middle) == {Canonical(middle[0])} + CanonicalSet(middle[1..])
  {
    forall t | t in middle ensures t == middle[0] || t in middle[1..] {
      var i :| 0 <= i < |middle| && middle[i] == t;
      assert i > 0 ==> middle[1..][i - 1] == t;
    }
  }

  /** A record the comparison treats as a set: valid, and of the simple form. */
  ghost predicate SimpleRecord(ip: Ip, tokens: seq<string>) {
    ValidateTokens(ip, tokens) == None && SimpleParts(tokens).Some?
  }

  ghost function Verdicts(tokens: seq<string>, sender: Sender): Verdict {
    if tokens == [] then Neutral else Evaluate(tokens[1..], sender)
  }

  /** The ordered record and the set form agree on every sender. */
  ghost predicate EvaluatesAs(tokens: seq<string>, parts: Parts) {
    && parts.terminal in {"-all", "~all"}
    && forall sender: Sender :: Verdicts(tokens, sender) == EvaluateParts(parts, sender)
  }

  lemma PlainEvaluates(tokens: seq<string>, terminal: string)
    requires |tokens| >= 2 && PlainMiddle(Middle(tokens))
    requires terminal == tokens[|tokens| - 1] && terminal in {"-all", "~all"}
    ensures EvaluatesAs(tokens, Parts(CanonicalSet(Middle(tokens)), terminal))
  {
    assert tokens[1..] == Middle(tokens) + [terminal];
    forall sender: Sender
      ensures Verdicts(tokens, sender) == EvaluateParts(Parts(CanonicalSet(Middle(tokens)), terminal), sender)
    {
      EvaluateSimple(Middle(tokens), terminal, sender);
    }
  }

  lemma SimpleRecordEvaluates(ip: Ip, tokens: seq<string>)
    requires SimpleRecord(ip, tokens)
    ensures EvaluatesAs(tokens, SimpleParts(tokens).value)
  {
    SimpleMiddle(ip, tokens);
    PlainEvaluates(tokens, tokens[|tokens| - 1]);
  }

  lemma MiddleReadable(read: Reader, tokens: seq<string>)
    requires |tokens| >= 2 && AllReadable(read, tokens[1..])
    ensures forall token <- Middle(tokens) :: read(token).Success?
  {
    forall i | 0 <= i < |Middle(tokens)|
      ensures read(Middle(tokens)[i]).Success?
    {
      assert tokens[1..][i] == Middle(tokens)[i];
    }
  }

  lemma SimpleMiddle(ip: Ip, tokens: seq<string>)
    requires SimpleRecord(ip, tokens)
    ensures PlainMiddle(Middle(tokens))
  {
    CheckTermsIff(ReaderOf(ip), tokens[1..], 0, {});
    MiddleReadable(ReaderOf(ip), tokens);
    PlainIfReadable(ip, Middle(tokens));
  }

  lemma PlainIfReadable(ip: Ip, middle: seq<string>)
    requires AllSimple(middle) && forall token <- middle :: ReaderOf(ip)(token).Success?
    ensures PlainMiddle(middle)
  {
    forall token <- middle
      ensures '=' !in token
    {
      SimpleIsMechanism(ip, token);
    }
  }

  lemma ReadModifier(ip: Ip, raw: string)
    requires '=' in Bare(raw) && ReadTerm(ip, raw).Success?
    ensures IsModifierName(Before(Bare(raw), '='))
  {
  }

  /** A well-formed term that looks like `mx`, `a`, `mx:...` or `a:...` is no modifier. */
  lemma SimpleIsMechanism(ip: Ip, token: string)
    requires IsSimple(token) && ReadTerm(ip, token).Success?
    ensures '=' !in token
  {
    SimpleUnsigned(token);
    if '=' in Bare(token) {
      ReadModifier(ip, token);
      ModifierNotSimple(Bare(token));
    }
    assert !IsQualifier('=');
    assert token == Bare(token) || token == [token[0]] + Bare(token);
  }

  lemma SimpleUnsigned(token: string)
    requires IsSimple(token)
    ensures Bare(token) == Unsigned(token)
  {
    assert !IsQualifier('m') && !IsQualifier('a');
    assert Unsigned(token) != "" && Unsigned(token)[0] in "ma";
  }

  lemma ModifierNotSimple(term: string)
    requires '=' in term && IsModifierName(Before(term, '='))
    ensures !(term == "mx" || term == "a" || StartsWith(term, "mx:") || StartsWith(term, "a:"))
  {
    if StartsWith(term, "mx:") {
      ColonNoModifier(term, 2);
    }
    if StartsWith(term, "a:") {
      ColonNoModifier(term, 1);
    }
  }

  lemma ColonNoModifier(term: string, k: nat)
    requires 0 < k < |term| && term[k] == ':' && forall i | 0 <= i < k :: term[i] != '='
    ensures '=' in term ==> !IsModifierName(Before(term, '='))
  {
    var name := Before(term, '=');
    if '=' in term {
      assert |name| > k && name[k] == ':';
      assert name[1..][k - 1] == ':' && ':' in name[1..];
      assert !IsLetter(':') && !IsDigit(':') && ':' !in "_.-";
    }
  }

  /** What the comparison promises about mail: every sender that a required mechanism admits is admitted by
      the published record, and whoever is not admitted is treated at least as strictly as expected. */
  ghost predicate SafeReplacement(required: set<string>, e: seq<string>, c: seq<string>) {
    forall sender: Sender ::
      && (Matches(required, sender) ==> Verdicts(c, sender) == Pass)
      && (Verdicts(c, sender) != Pass ==> Rank(Verdicts(e, sender)) <= Rank(Verdicts(c, sender)))
  }

  /** The set comparison holds exactly when the replacement is safe. */
  lemma CoversIffSafe(e: seq<string>, c: seq<string>, expected: Parts, current: Parts)
    requires EvaluatesAs(e, expected) && EvaluatesAs(c, current)
    ensures Covers(expected, current) <==> SafeReplacement(Required(expected), e, c)
  {
    if SafeReplacement(Required(expected), e, c) {
      forall m | m in Required(expected) ensures m in current.mechanisms {
        var only: Sender := iset{m};
        assert m in only;
        assert Verdicts(c, only) == Pass;
      }
      var nobody: Sender := iset{};
      assert Verdicts(c, nobody) == QualifierVerdict(current.terminal);
      assert Verdicts(e, nobody) == QualifierVerdict(expected.terminal);
    }
  }

  lemma MatchIffSafe(ip: Ip, e: seq<string>, c: seq<string>)
    requires SimpleRecord(ip, e) && SimpleRecord(ip, c)
    ensures TokensMatch(ip, e, c) <==> SafeReplacement(Required(SimpleParts(e).value), e, c)
  {
    SimpleRecordEvaluates(ip, e);
    SimpleRecordEvaluates(ip, c);
    CoversIffSafe(e, c, SimpleParts(e).value, SimpleParts(c).value);
  }

  /** Soundness of `_record_matches` for SPF over the records as published: both simple, and then safe, or
      token for token the same. */
  lemma MatchIsSafe(ip: Ip, expected: string, current: string)
    requires SpfMatches(ip, expected, current)
    ensures var e, c := Tokens(expected), Tokens(current);
            if SimpleParts(e).Some? && SimpleParts(c).Some? then SafeReplacement(Required(SimpleParts(e).value), e, c)
            else e == c
  {
    MatchesByTokens(ip, expected, current);
    var e, c := Tokens(expected), Tokens(current);
    if SimpleParts(e).Some? && SimpleParts(c).Some? {
      MatchIffSafe(ip, e, c);
    }
  }

  /** The documented exception, exactly: a matching record also admits everyone the expected one admits just
      when it repeats all of its mechanisms, the optional `a:` hosts included. */
  lemma MatchAdmitsAllIff(ip: Ip, e: seq<string>, c: seq<string>)
    requires SimpleRecord(ip, e) && SimpleRecord(ip, c)
    ensures (forall sender: Sender :: Verdicts(e, sender) == Pass ==> Verdicts(c, sender) == Pass)
       <==> SimpleParts(e).value.mechanisms <= SimpleParts(c).value.mechanisms
  {
    SimpleRecordEvaluates(ip, e);
    SimpleRecordEvaluates(ip, c);
    AdmitsAllIff(e, c, SimpleParts(e).value, SimpleParts(c).value);
  }

  lemma AdmitsAllIff(e: seq<string>, c: seq<string>, expected: Parts, current: Parts)
    requires EvaluatesAs(e, expected) && EvaluatesAs(c, current)
    ensures (forall sender: Sender :: Verdicts(e, sender) == Pass ==> Verdicts(c, sender) == Pass)
       <==> expected.mechanisms <= current.mechanisms
  {
    if forall sender: Sender :: Verdicts(e, sender) == Pass ==> Verdicts(c, sender) == Pass {
      forall m | m in expected.mechanisms ensures m in current.mechanisms {
        var only: Sender := iset{m};
        assert m in only;
        assert Verdicts(e, only) == Pass;
      }
    }
  }

  /** The set form is canonical: two valid simple records have the same parts exactly when no sender can tell
      them apart, whatever their order, repetitions, explicit `+` signs and trailing dots. */
  lemma PartsAreCanonical(ip: Ip, e: seq<string>, c: seq<string>)
    requires SimpleRecord(ip, e) && SimpleRecord(ip, c)
    ensures SimpleParts(e) == SimpleParts(c) <==> forall sender: Sender :: Verdicts(e, sender) == Verdicts(c, sender)
  {
    SimpleRecordEvaluates(ip, e);
    SimpleRecordEvaluates(ip, c);
    SamePartsIff(e, c, SimpleParts(e).value, SimpleParts(c).value);
  }

  lemma SamePartsIff(e: seq<string>, c: seq<string>, expected: Parts, current: Parts)
    requires EvaluatesAs(e, expected) && EvaluatesAs(c, current)
    ensures expected == current <==> forall sender: Sender :: Verdicts(e, sender) == Verdicts(c, sender)
  {
    if forall sender: Sender :: Verdicts(e, sender) == Verdicts(c, sender) {
      AdmitsAllIff(e, c, expected, current);
      AdmitsAllIff(c, e, current, expected);
      var nobody: Sender := iset{};
      assert Verdicts(e, nobody) == Verdicts(c, nobody);
    }
  }

  // ---------------------------------------------------------------- transitivity

  /** When a replacement of a replacement is again a replacement: the caller can read it off the expected parts. */
  predicate ChainsFrom(expected: Parts) {
    || "mx" in expected.mechanisms
    || expected.terminal != "~all"
    || forall m <- expected.mechanisms :: !StartsWith(m, "a:")
  }

  /** Covering chains from an expected record exactly under that condition. */
  lemma CoversTransitiveIff(expected: Parts)
    requires expected.terminal in {"-all", "~all"}
    ensures ChainsFrom(expected) <==>
              forall b: Parts, c: Parts :: Covers(expected, b) && Covers(b, c) ==> Covers(expected, c)
  {
    if ChainsFrom(expected) {
      forall b: Parts, c: Parts | Covers(expected, b) && Covers(b, c)
        ensures Covers(expected, c)
      {
        assert forall m | m in Required(expected) :: m in Required(b);
      }
    } else {
      var a :| a in expected.mechanisms && StartsWith(a, "a:");
      var b := Parts(expected.mechanisms + {"mx"}, "~all");
      var c := Parts(Required(b), "~all");
      assert Covers(expected, b) && Covers(b, c);
      assert a in Required(expected) && a !in c.mechanisms;
    }
  }

  /** Matching is transitive from every expected record that names `mx`, as the generated ones do. */
  lemma MatchTransitive(ip: Ip, expected: string, b: string, c: string)
    requires SimpleParts(Tokens(expected)).Some? ==> ChainsFrom(SimpleParts(Tokens(expected)).value)
    requires SpfMatches(ip, expected, b) && SpfMatches(ip, b, c)
    ensures SpfMatches(ip, expected, c)
  {
    MatchesByTokens(ip, expected, b);
    MatchesByTokens(ip, b, c);
    MatchesByTokens(ip, expected, c);
    if SimpleParts(Tokens(expected)).Some? {
      CoversTransitiveIff(SimpleParts(Tokens(expected)).value);
    }
  }
}
