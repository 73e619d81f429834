/** The apex SPF record the domain service recommends, fed to its own validator and comparison. */
module SpfGenerated {
  import opened Wrappers
  import opened Text
  import opened SpfRecord
  import opened SpfSemantics

  function Family(version: nat): string {
    if version == 4 then "ip4" else "ip6"
  }

  function MechanismFor(ip: Ip, host: string): string {
    match ip.address(host)
    case None => "a:" + host
    case Some(address) => Family(address.version) + ":" + address.text
  }

  function MechanismsFor(ip: Ip, hosts: seq<string>): seq<string> {
    if hosts == [] then [] else MechanismsFor(ip, hosts[..|hosts| - 1]) + [MechanismFor(ip, hosts[|hosts| - 1])]
  }

  function SpfExpected(ip: Ip, hostname: string, relays: seq<string>): string {
    if relays != [] then "v=spf1 mx " + Join(MechanismsFor(ip, relays)) + " -all"
    else "v=spf1 mx a:" + hostname + " ~all"
  }

  method BuildSpfExpected(ip: Ip, hostname: string, relays: seq<string>) returns (record: string)
    ensures record == SpfExpected(ip, hostname, relays)
  {
    if relays != [] {
      var mechanisms: seq<string> := [];
      for i := 0 to |relays|
        invariant mechanisms == MechanismsFor(ip, relays[..i])
      {
        assert relays[..i + 1][..i] == relays[..i];
        var address := ip.address(relays[i]);
        if address.None? {
          mechanisms := mechanisms + ["a:" + relays[i]];
        } else {
          mechanisms := mechanisms + [Family(address.value.version) + ":" + address.value.text];
        }
      }
      assert relays[..|relays|] == relays;
      return "v=spf1 mx " + Join(mechanisms) + " -all";
    }
    return "v=spf1 mx a:" + hostname + " ~all";
  }

  /** A name that can stand in an SPF mechanism. */
  predicate IsName(name: string) {
    IsWord(name) && '/' !in name && '=' !in name
  }

  /** A usable relay endpoint: a name, or an address whose canonical lower-case text the network parser reads
      back with the same version. */
  predicate IsRelay(ip: Ip, host: string) {
    match ip.address(host)
    case None => IsName(host)
    case Some(Address(version, text)) =>
      && version in {4, 6}
      && IsWord(text) && '=' !in text && Lower(text) == text
      && ip.network(text) == Some(version)
  }

  /** Relays that cost the receiver a DNS lookup. */
  function HostRelays(ip: Ip, relays: seq<string>): nat {
    if relays == [] then 0
    else HostRelays(ip, relays[..|relays| - 1]) + (if ip.address(relays[|relays| - 1]).None? then 1 else 0)
  }

  // ---------------------------------------------------------------- the record as tokens

  function LowerAll(ws: seq<string>): (r: seq<string>)
    ensures |r| == |ws|
  {
    seq(|ws|, i requires 0 <= i < |ws| => Lower(ws[i]))
  }

  lemma {:induction false} JoinAppend(ws: seq<string>, w: string)
    requires ws != []
    ensures Join(ws + [w]) == Join(ws) + " " + w
  {
    assert (ws + [w])[1..] == ws[1..] + [w];
    if |ws| > 1 {
      JoinAppend(ws[1..], w);
    }
  }

  lemma {:induction false} LowerJoin(ws: seq<string>)
    ensures Lower(Join(ws)) == Join(LowerAll(ws))
  {
    if |ws| > 1 {
      LowerConcat(ws[0] + " ", Join(ws[1..]));
      LowerConcat(ws[0], " ");
      assert Lower(" ") == " ";
      LowerJoin(ws[1..]);
      assert LowerAll(ws)[1..] == LowerAll(ws[1..]);
    }
  }

  lemma LowerKeepsWord(w: string)
    requires IsWord(w)
    ensures IsWord(Lower(w))
  {
    forall i | 0 <= i < |w| ensures !IsSpace(Lower(w)[i]) {
      assert w[i] in w;
    }
  }

  lemma LowerKeepsName(w: string)
    requires IsName(w)
    ensures IsName(Lower(w))
  {
    LowerKeepsWord(w);
    forall i | 0 <= i < |w| ensures Lower(w)[i] != '/' && Lower(w)[i] != '=' {
      assert w[i] in w;
    }
  }

  function Frame(middle: seq<string>, terminal: string): seq<string> {
    ["v=spf1", "mx"] + middle + [terminal]
  }

  lemma Literals()
    ensures IsWord("v=spf1") && IsWord("mx") && IsWord("-all") && IsWord("~all")
    ensures Lower("v=spf1") == "v=spf1" && Lower("mx") == "mx" && Lower("-all") == "-all" && Lower("~all") == "~all"
    ensures Lower("a:") == "a:"
  {
  }

  lemma FrameWords(middle: seq<string>, terminal: string)
    requires AllWords(middle) && terminal in {"-all", "~all"}
    ensures AllWords(Frame(middle, terminal))
  {
    Literals();
  }

  lemma LowerFrame(middle: seq<string>, terminal: string)
    requires AllWords(middle) && terminal in {"-all", "~all"}
    ensures LowerAll(Frame(middle, terminal)) == Frame(LowerAll(middle), terminal)
    ensures AllWords(LowerAll(middle))
  {
    Literals();
    forall i | 0 <= i < |middle| ensures IsWord(LowerAll(middle)[i]) {
      assert middle[i] in middle;
      LowerKeepsWord(middle[i]);
    }
  }

  /** The text of a framed record, and its tokens before and after lower-casing. */
  lemma FrameTokens(record: string, middle: seq<string>, terminal: string)
    requires middle != [] && AllWords(middle) && terminal in {"-all", "~all"}
    requires record == "v=spf1 mx " + Join(middle) + " " + terminal
    ensures Split(record) == Frame(middle, terminal) && Split(Strip(record)) == Split(record)
    ensures Tokens(record) == Frame(LowerAll(middle), terminal)
  {
    FrameJoin(middle, terminal);
    FrameWords(middle, terminal);
    LowerFrame(middle, terminal);
    FrameWords(LowerAll(middle), terminal);
    LowerJoin(Frame(middle, terminal));
    SplitJoin(Frame(middle, terminal));
    SplitJoin(Frame(LowerAll(middle), terminal));
    SplitStrip(record);
  }

  lemma FrameJoin(middle: seq<string>, terminal: string)
    requires middle != []
    ensures Join(Frame(middle, terminal)) == "v=spf1 mx " + Join(middle) + " " + terminal
  {
    JoinAppend(["v=spf1", "mx"] + middle, terminal);
    assert (["v=spf1", "mx"] + middle)[1..] == ["mx"] + middle && (["mx"] + middle)[1..] == middle;
    assert Join(["mx"] + middle) == "mx" + " " + Join(middle);
    assert Join(["v=spf1", "mx"] + middle) == "v=spf1" + " " + ("mx" + " " + Join(middle));
  }

  // ---------------------------------------------------------------- validity

  lemma ReadMx(ip: Ip)
    ensures ReadTerm(ip, "mx") == Success(Term(None, true))
  {
    assert Lower("mx") == "mx";
    assert Before("mx", ':') == "mx" && Before("mx", '/') == "mx";
  }

  lemma AllMechanism(ip: Ip)
    ensures CheckMechanism(ip, "all") == None && MechanismName("all") == "all"
  {
    assert Lower("all") == "all";
    assert Before("all", ':') == "all" && Before("all", '/') == "all";
  }

  lemma ReadAll(ip: Ip, terminal: string)
    requires terminal in {"-all", "~all"}
    ensures ReadTerm(ip, terminal) == Success(Term(None, false))
  {
    assert Bare(terminal) == "all";
    AllMechanism(ip);
  }

  lemma HostMechanism(ip: Ip, host: string)
    requires IsName(host)
    ensures CheckMechanism(ip, "a:" + host) == None && MechanismName("a:" + host) == "a"
  {
    var term := "a:" + host;
    BeforeUnique("a", ':', host);
    assert term == "a" + [':'] + host;
    assert Before("a", '/') == "a" && Lower("a") == "a";
    assert MechanismName(term) == "a";
    assert term[1..] == ":" + host && (":" + host)[1..] == host && Before(host, '/') == host;
    assert (":" + host)[1 + |host|..] == "";
  }

  lemma ReadHost(ip: Ip, host: string)
    requires IsName(host)
    ensures ReadTerm(ip, "a:" + host) == Success(Term(None, true))
  {
    HostMechanism(ip, host);
    assert Bare("a:" + host) == "a:" + host;
  }

  lemma FamilyName(version: nat, text: string)
    ensures MechanismName(Family(version) + ":" + text) == Family(version)
    ensures Lower(Family(version) + ":" + text) == Family(version) + ":" + Lower(text)
  {
    var name := Family(version);
    BeforeUnique(name, ':', text);
    assert name + ":" + text == name + [':'] + text;
    assert Before(name, '/') == name && Lower(name) == name;
    LowerConcat(name + ":", text);
    assert Lower(name + ":") == name + ":";
  }

  lemma NetworkMechanism(ip: Ip, name: string, term: string)
    requires name in {"ip4", "ip6"} && MechanismName(term) == name
    requires StartsWith(Lower(term), name + ":") && |term| >= 4
    requires ip.network(term[4..]) == Some(if name == "ip4" then 4 else 6)
    ensures CheckMechanism(ip, term) == None
  {
  }

  lemma AddressMechanism(ip: Ip, version: nat, text: string)
    requires version in {4, 6} && ip.network(text) == Some(version)
    ensures CheckMechanism(ip, Family(version) + ":" + text) == None
  {
    FamilyName(version, text);
    var term := Family(version) + ":" + text;
    assert term[4..] == text;
    NetworkMechanism(ip, Family(version), term);
  }

  /** A term that is neither qualified nor a modifier reads as the mechanism it names. */
  lemma ReadMechanism(ip: Ip, term: string)
    requires term != "" && !IsQualifier(term[0]) && '=' !in term && CheckMechanism(ip, term) == None
    ensures ReadTerm(ip, term) == Success(Term(None, MechanismName(term) in {"a", "mx", "ptr", "include", "exists"}))
  {
  }

  lemma ReadAddress(ip: Ip, version: nat, text: string)
    requires version in {4, 6} && '=' !in text && ip.network(text) == Some(version)
    ensures ReadTerm(ip, Family(version) + ":" + text) == Success(Term(None, false))
  {
    var term := Family(version) + ":" + text;
    AddressMechanism(ip, version, text);
    FamilyName(version, text);
    assert term[0] == 'i' && !IsQualifier('i');
    ReadMechanism(ip, term);
  }

  /** Each mechanism of the recommended record, lower-cased or not, is well formed and costs a lookup exactly
      when its relay is a host name. */
  lemma MechanismReadable(ip: Ip, host: string)
    requires IsRelay(ip, host)
    ensures ReadTerm(ip, MechanismFor(ip, host)) == Success(Term(None, ip.address(host).None?))
    ensures ReadTerm(ip, Lower(MechanismFor(ip, host))) == Success(Term(None, ip.address(host).None?))
  {
    match ip.address(host)
    case None =>
      ReadHost(ip, host);
      LowerKeepsName(host);
      ReadHost(ip, Lower(host));
      LowerConcat("a:", host);
      Literals();
    case Some(Address(version, text)) =>
      ReadAddress(ip, version, text);
      FamilyName(version, text);
  }

  lemma MechanismIsWord(ip: Ip, host: string)
    requires IsRelay(ip, host)
    ensures IsWord(MechanismFor(ip, host))
  {
  }

  lemma {:induction false} LookupTermsConcat(read: Reader, a: seq<string>, b: seq<string>)
    requires AllReadable(read, a) && AllReadable(read, b) && AllReadable(read, a + b)
    ensures LookupTerms(read, a + b) == LookupTerms(read, a) + LookupTerms(read, b)
  {
    if a == [] {
      assert a + b == b;
    } else {
      assert (a + b)[1..] == a[1..] + b;
      assert forall i | 0 <= i < |a| - 1 :: a[1..][i] == a[i + 1];
      LookupTermsConcat(read, a[1..], b);
    }
  }

  /** The terms read as the relays they stand for. */
  ghost predicate ReadAsRelays(ip: Ip, read: Reader, terms: seq<string>, relays: seq<string>) {
    && |terms| == |relays|
    && forall i | 0 <= i < |terms| :: read(terms[i]) == Success(Term(None, ip.address(relays[i]).None?))
  }

  lemma {:induction false} RelayLookups(ip: Ip, read: Reader, terms: seq<string>, relays: seq<string>)
    requires ReadAsRelays(ip, read, terms, relays)
    ensures AllReadable(read, terms) && LookupTerms(read, terms) == HostRelays(ip, relays)
  {
    if terms != [] {
      var n := |terms| - 1;
      RelayLookups(ip, read, terms[..n], relays[..n]);
      assert terms == terms[..n] + [terms[n]];
      assert [terms[n]][1..] == [];
      LookupTermsConcat(read, terms[..n], [terms[n]]);
    }
  }

  lemma FrameValid(ip: Ip, read: Reader, middle: seq<string>, terminal: string, relays: seq<string>)
    requires ReadAsRelays(ip, read, middle, relays)
    requires read("mx") == Success(Term(None, true)) && read(terminal) == Success(Term(None, false))
    ensures CheckTerms(read, ["mx"] + middle + [terminal], 0, {})
         == if HostRelays(ip, relays) <= 9 then None else Some(TooManyLookups(1 + HostRelays(ip, relays)))
  {
    var terms := ["mx"] + middle + [terminal];
    RelayLookups(ip, read, middle, relays);
    assert terms[1..] == middle + [terminal];
    assert [terminal][1..] == [];
    LookupTermsConcat(read, middle, [terminal]);
    CheckTermsIff(read, terms, 0, {});
  }

  lemma {:induction false} MechanismsAt(ip: Ip, relays: seq<string>)
    ensures |MechanismsFor(ip, relays)| == |relays|
    ensures forall i | 0 <= i < |relays| :: MechanismsFor(ip, relays)[i] == MechanismFor(ip, relays[i])
  {
    if relays != [] {
      MechanismsAt(ip, relays[..|relays| - 1]);
    }
  }

  /** With relays, the recommended record validates, and matches itself, exactly when at most nine relays are
      host names: `mx` takes the tenth lookup, and address relays are free. */
  lemma GeneratedRecordValid(ip: Ip, hostname: string, relays: seq<string>)
    requires relays != [] && forall i | 0 <= i < |relays| :: IsRelay(ip, relays[i])
    ensures var record := SpfExpected(ip, hostname, relays);
            && Validate(ip, record) == (if HostRelays(ip, relays) <= 9 then None
                                        else Some(TooManyLookups(1 + HostRelays(ip, relays))))
            && (SpfMatches(ip, record, record) <==> HostRelays(ip, relays) <= 9)
  {
    var record := SpfExpected(ip, hostname, relays);
    var middle := MechanismsFor(ip, relays);
    RelayMechanisms(ip, relays);
    RecordText(ip, hostname, relays);
    FrameTokens(record, middle, "-all");
    FrameVerdict(ip, middle, "-all", relays);
    FrameVerdict(ip, LowerAll(middle), "-all", relays);
    MatchesItselfIffValid(ip, record);
  }

  lemma RelayMechanisms(ip: Ip, relays: seq<string>)
    requires forall i | 0 <= i < |relays| :: IsRelay(ip, relays[i])
    ensures var middle := MechanismsFor(ip, relays);
            && |middle| == |relays|
            && AllWords(middle)
            && ReadAsRelays(ip, ReaderOf(ip), middle, relays)
            && ReadAsRelays(ip, ReaderOf(ip), LowerAll(middle), relays)
  {
    MechanismsAt(ip, relays);
    var middle := MechanismsFor(ip, relays);
    forall i | 0 <= i < |relays|
      ensures IsWord(middle[i])
      ensures ReaderOf(ip)(middle[i]) == Success(Term(None, ip.address(relays[i]).None?))
      ensures ReaderOf(ip)(LowerAll(middle)[i]) == Success(Term(None, ip.address(relays[i]).None?))
    {
      MechanismReadable(ip, relays[i]);
      MechanismIsWord(ip, relays[i]);
    }
  }

  lemma RecordText(ip: Ip, hostname: string, relays: seq<string>)
    ensures SpfExpected(ip, hostname, relays)
         == if relays != [] then "v=spf1 mx " + Join(MechanismsFor(ip, relays)) + " " + "-all"
            else "v=spf1 mx " + Join(["a:" + hostname]) + " " + "~all"
  {
    assert " " + "-all" == " -all" && " " + "~all" == " ~all";
    assert "v=spf1 mx " + ("a:" + hostname) == "v=spf1 mx a:" + hostname;
  }

  lemma FrameVerdict(ip: Ip, middle: seq<string>, terminal: string, relays: seq<string>)
    requires terminal in {"-all", "~all"}
    requires ReadAsRelays(ip, ReaderOf(ip), middle, relays)
    ensures ValidateTokens(ip, Frame(middle, terminal))
         == if HostRelays(ip, relays) <= 9 then None else Some(TooManyLookups(1 + HostRelays(ip, relays)))
  {
    ReadMx(ip);
    ReadAll(ip, terminal);
    FrameValid(ip, ReaderOf(ip), middle, terminal, relays);
    ValidateFrame(ip, middle, terminal);
  }

  lemma ValidateFrame(ip: Ip, middle: seq<string>, terminal: string)
    ensures ValidateTokens(ip, Frame(middle, terminal))
         == CheckTerms(ReaderOf(ip), ["mx"] + middle + [terminal], 0, {})
  {
    Literals();
    FrameTail(middle, terminal);
  }

  lemma FrameTail(middle: seq<string>, terminal: string)
    ensures Frame(middle, terminal)[0] == "v=spf1" && Frame(middle, terminal)[1..] == ["mx"] + middle + [terminal]
  {
  }

  /** The comparison is reflexive on valid records, and only there. */
  lemma MatchesItselfIffValid(ip: Ip, record: string)
    ensures SpfMatches(ip, record, record) <==> ValidateTokens(ip, Tokens(record)) == None
  {
    MatchesByTokens(ip, record, record);
  }

  /** Without relays the soft-fail recommendation is valid and matches itself. */
  lemma FallbackRecordValid(ip: Ip, hostname: string)
    requires IsName(hostname)
    ensures var record := SpfExpected(ip, hostname, []);
            Validate(ip, record) == None && SpfMatches(ip, record, record)
  {
    var record := SpfExpected(ip, hostname, []);
    FallbackTokens(ip, hostname);
    FallbackVerdict(ip, hostname);
    LowerKeepsName(hostname);
    FallbackVerdict(ip, Lower(hostname));
    MatchesItselfIffValid(ip, record);
  }

  lemma FallbackTokens(ip: Ip, hostname: string)
    requires IsName(hostname)
    ensures var record := SpfExpected(ip, hostname, []);
            && Split(Strip(record)) == Frame(["a:" + hostname], "~all")
            && Tokens(record) == Frame(["a:" + Lower(hostname)], "~all")
  {
    RecordText(ip, hostname, []);
    FrameTokens(SpfExpected(ip, hostname, []), ["a:" + hostname], "~all");
    LowerConcat("a:", hostname);
    Literals();
    assert LowerAll(["a:" + hostname]) == ["a:" + Lower(hostname)];
  }

  lemma FallbackVerdict(ip: Ip, hostname: string)
    requires IsName(hostname)
    ensures ValidateTokens(ip, Frame(["a:" + hostname], "~all")) == None
  {
    var nameOnly := ip.(address := _ => None);
    ReadHost(ip, hostname);
    assert HostRelays(nameOnly, [hostname]) == 1 by {
      assert [hostname][..0] == [];
    }
    ReadMx(ip);
    ReadAll(ip, "~all");
    FrameValid(nameOnly, ReaderOf(ip), ["a:" + hostname], "~all", [hostname]);
    ValidateFrame(ip, ["a:" + hostname], "~all");
  }

  /** A generated record names `mx`, so matching is transitive from it. */
  lemma GeneratedRecordChains(ip: Ip, hostname: string, relays: seq<string>, b: string, c: string)
    requires if relays == [] then IsName(hostname) else forall i | 0 <= i < |relays| :: IsRelay(ip, relays[i])
    requires var record := SpfExpected(ip, hostname, relays);
             SpfMatches(ip, record, b) && SpfMatches(ip, b, c)
    ensures SpfMatches(ip, SpfExpected(ip, hostname, relays), c)
  {
    var record := SpfExpected(ip, hostname, relays);
    if relays == [] {
      FallbackTokens(ip, hostname);
      FrameNamesMx(["a:" + Lower(hostname)], "~all");
    } else {
      RelayMechanisms(ip, relays);
      RecordText(ip, hostname, relays);
      FrameTokens(record, MechanismsFor(ip, relays), "-all");
      FrameNamesMx(LowerAll(MechanismsFor(ip, relays)), "-all");
    }
    MatchTransitive(ip, record, b, c);
  }

  lemma FrameNamesMx(middle: seq<string>, terminal: string)
    ensures var parts := SimpleParts(Frame(middle, terminal));
            parts.Some? ==> "mx" in parts.value.mechanisms
  {
    var tokens := Frame(middle, terminal);
    assert Middle(tokens)[0] == "mx";
    assert !StartsWith("mx", "+") by {
      assert "mx"[0] == 'm' && "+"[0] == '+';
    }
    assert Canonical("mx") == "mx";
  }
}
