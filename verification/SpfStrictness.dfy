/** A record that stays within the limit of section 4.6.4 of RFC 7208 and that the published-SPF check flags: it
    includes one domain twice. */
module SpfStrictness {
  import opened Wrappers
  import opened Text
  import opened SpfExpansion
  import opened SpfStandard
  import SpfRecord

  const INCLUDE: string := "include"

  function Include(domain: string): string {
    INCLUDE + [':'] + domain
  }

  lemma IncludeLetters()
    ensures |INCLUDE| == 7 && INCLUDE[0] == 'i' && IsWord(INCLUDE) && Lower(INCLUDE) == INCLUDE && INCLUDE in QUERIES
    ensures forall i | 0 <= i < |INCLUDE| :: INCLUDE[i] !in {':', '/', '='}
  {
  }

  lemma IncludeWord(domain: string)
    requires IsWord(domain)
    ensures IsWord(Include(domain))
  {
    IncludeLetters();
  }

  lemma NamedBy(word: string, c: char, rest: string)
    requires word != "" && (forall i | 0 <= i < |word| :: word[i] !in {':', '/', '='}) && c in {':', '/', '='}
    requires !SpfRecord.IsQualifier(word[0])
    ensures var term := word + [c] + rest;
            && SpfRecord.Bare(term) == term && Name(term) == word && Delimiter(term) == Some(c)
            && term[|word|..] == [c] + rest
  {
    var term := word + [c] + rest;
    assert term[..|word|] == word;
    NamedAt(term, |word|);
  }

  /** An `include` costs one lookup by the standard, and names its domain. */
  lemma IncludeTerm(domain: string)
    ensures StandardCost(Include(domain)) == 1 && Straight(Include(domain))
    ensures TermTargets(Include(domain)) == [domain]
  {
    IncludeLetters();
    NamedBy(INCLUDE, ':', domain);
    TargetsByName(Include(domain), domain);
    TargetsAgreeIff(Include(domain));
  }

  lemma TargetsByName(term: string, domain: string)
    requires SpfRecord.Bare(term) == term && Qualified(term) && Name(term) == INCLUDE && Lower(INCLUDE) == INCLUDE
    requires Delimiter(term) == Some(':') && term[|INCLUDE|..] == [':'] + domain
    ensures StandardTargets(term) == [domain] && StandardCost(term) == 1 && !Diverted(term)
  {
  }

  function Twice(domain: string): string {
    RecordOf([Include(domain), Include(domain)])
  }

  lemma PairSums(t: string, domain: string)
    requires StandardCost(t) == 1 && TermTargets(t) == [domain]
    ensures Sum([t, t], StandardCost) == 2 && TargetsOf([t, t]) == [domain, domain]
  {
    assert [t][..0] == [];
    assert Sum([t], StandardCost) == 1 && TargetsOf([t]) == [domain];
    assert [t, t][..1] == [t];
  }

  lemma TwiceNested(domain: string)
    requires IsWord(domain)
    ensures Terms(Twice(domain)) == [Include(domain), Include(domain)]
    ensures Sum(Terms(Twice(domain)), StandardCost) == 2 && Nested(Twice(domain)) == [domain, domain]
  {
    IncludeWord(domain);
    RecordTerms([Include(domain), Include(domain)]);
    IncludeTerm(domain);
    PairSums(Include(domain), domain);
  }

  lemma EmptyRecord()
    ensures Terms(VERSION) == [] && KeepSpf([VERSION]) == [VERSION]
  {
    RecordTerms([]);
    assert [VERSION] + [] == [VERSION];
    assert Lower(VERSION) == VERSION;
    assert [VERSION][..0] == [];
  }

  /** Every name normalises to itself, and only one domain publishes SPF, without any term. */
  function OneRecord(domain: string): Dns {
    Dns((name: string) => Some(name), (name: string) => if name == domain then [VERSION] else [])
  }

  function TwiceTree(domain: string): Forest {
    Node(domain, VERSION, Nil, Node(domain, VERSION, Nil, Nil))
  }

  lemma TwiceExpansion(domain: string)
    requires IsWord(domain)
    ensures IsExpansion(OneRecord(domain), Nested(Twice(domain)), TwiceTree(domain))
    ensures TreeSum(TwiceTree(domain), StandardCost) == 0 && Domains(TwiceTree(domain)) == [domain, domain]
    ensures TreeTerms(TwiceTree(domain), Straight)
  {
    TwiceNested(domain);
    EmptyRecord();
    assert SpfRecords(OneRecord(domain), domain) == [VERSION];
    assert [domain, domain][1..] == [domain] && [domain][1..] == [];
  }

  /** Two lookups in all by the standard, and yet the check does not pass the record. */
  lemma RepeatedIncludeFlagged(domain: string, root: string)
    requires IsWord(domain)
    ensures exists f :: IsStandardExpansion(OneRecord(domain), StandardNested(Twice(domain)), f) &&
                        Total(Twice(domain), f, StandardCost) == 2
    ensures !Passes(OneRecord(domain), Twice(domain), root)
  {
    var f := TwiceTree(domain);
    TwiceExpansion(domain);
    TwiceNested(domain);
    IncludeTerm(domain);
    StandardToo(OneRecord(domain), Twice(domain), f);
    RepeatFlagged(OneRecord(domain), Twice(domain), root, f, domain);
  }

  lemma StandardToo(dns: Dns, record: string, f: Forest)
    requires IsExpansion(dns, Nested(record), f) && WholeTerms(record, f, Straight)
    ensures IsStandardExpansion(dns, StandardNested(record), f)
  {
    NestedAgree(Terms(record));
    ExpansionsAgree(dns, Nested(record), f);
  }

  lemma RepeatFlagged(dns: Dns, record: string, root: string, f: Forest, domain: string)
    requires IsExpansion(dns, Nested(record), f) && Domains(f) == [domain, domain]
    ensures !Passes(dns, record, root)
  {
    PassIffShaped(dns, record, root, f);
    assert ([root] + Domains(f))[1] == ([root] + Domains(f))[2];
  }
}
