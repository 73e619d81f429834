/** The terms that the validator accepts, as a grammar: what they look like, and what each of them is read as. */
module SpfGrammar {
  import opened Wrappers
  import opened Text
  import opened SpfRecord

  /** The forms of a term, with names spelled as written and prefix lengths as digits. */
  datatype Form =
    | Modifier(name: string, value: string)
    | All(name: string)
    | Hosts(name: string, host: Option<string>, ip4: Option<string>, ip6: Option<string>)
    | Ptr(name: string, host: Option<string>)
    | Target(name: string, domain: string)
    | Network(name: string, text: string)

  function Optional(prefix: string, part: Option<string>): string {
    if part.Some? then prefix + part.value else ""
  }

  function Written(f: Form): string {
    match f
    case Modifier(name, value) => name + "=" + value
    case All(name) => name
    case Hosts(name, host, ip4, ip6) => name + (Optional(":", host) + (Optional("/", ip4) + Optional("//", ip6)))
    case Ptr(name, host) => name + Optional(":", host)
    case Target(name, domain) => name + ":" + domain
    case Network(name, text) => name + ":" + text
  }

  predicate NameLike(name: string) {
    name != "" && (forall i | 0 <= i < |name| ::
      'a' <= name[i] <= 'z' || 'A' <= name[i] <= 'Z' || (i > 0 && ('0' <= name[i] <= '9' || name[i] in "_.-")))
  }

  predicate HostLike(host: Option<string>) {
    host.Some? ==> host.value != "" && '/' !in host.value
  }

  function Digit(c: char): nat {
    if '0' <= c <= '9' then c as int - '0' as int else 0
  }

  /** The number that one to three digits stand for. */
  function Number(digits: string): nat
    requires 1 <= |digits| <= 3
  {
    if |digits| == 1 then Digit(digits[0])
    else if |digits| == 2 then 10 * Digit(digits[0]) + Digit(digits[1])
    else 100 * Digit(digits[0]) + 10 * Digit(digits[1]) + Digit(digits[2])
  }

  lemma DecimalIsNumber(digits: string)
    requires 1 <= |digits| <= 3
    ensures DecimalValue(digits) == Number(digits)
  {
    var n := |digits|;
    assert digits[..n - 1][..0] == "" && DecimalValue("") == 0;
    if n > 1 {
      DecimalIsNumber(digits[..n - 1]);
    }
  }

  /** One to three digits, and at most `limit`. */
  predicate LengthLike(digits: Option<string>, limit: nat) {
    digits.Some? ==> 1 <= |digits.value| <= 3 && (forall c <- digits.value :: '0' <= c <= '9') &&
                     Number(digits.value) <= limit
  }

  predicate Legal(ip: Ip, f: Form) {
    match f
    case Modifier(name, value) => NameLike(name) && value != ""
    case All(name) => Lower(name) == "all"
    case Hosts(name, host, ip4, ip6) =>
      Lower(name) in {"a", "mx"} && HostLike(host) && LengthLike(ip4, 32) && LengthLike(ip6, 128)
    case Ptr(name, host) => Lower(name) == "ptr" && HostLike(host)
    case Target(name, domain) => Lower(name) in {"include", "exists"} && domain != ""
    case Network(name, text) =>
      (Lower(name) == "ip4" && ip.network(text) == Some(4)) || (Lower(name) == "ip6" && ip.network(text) == Some(6))
  }

  // ---------------------------------------------------------------- prefix lengths

  predicate Digits(s: string) {
    forall c <- s :: '0' <= c <= '9'
  }

  lemma {:induction false} LeadingDigitsOf(digits: string, rest: string, limit: nat)
    requires Digits(digits) && |digits| <= limit
    requires rest == "" || !IsDigit(rest[0])
    ensures LeadingDigits(digits + rest, limit) == digits
  {
    if digits == "" {
      assert digits + rest == rest;
    } else {
      assert digits[0] in digits;
      assert (digits + rest)[1..] == digits[1..] + rest;
      assert forall c <- digits[1..] :: c in digits;
      LeadingDigitsOf(digits[1..], rest, limit - 1);
      assert digits == [digits[0]] + digits[1..];
    }
  }

  lemma {:induction false} LeadingDigitsAre(s: string, limit: nat)
    ensures Digits(LeadingDigits(s, limit)) && |LeadingDigits(s, limit)| <= limit
  {
    if !(limit == 0 || s == "" || !IsDigit(s[0])) {
      LeadingDigitsAre(s[1..], limit - 1);
    }
  }

  /** Behind the slash stand one to three digits: they are read, and otherwise nothing is. */
  lemma LengthRead(slash: string, digits: string, rest: string)
    requires Digits(digits) && 1 <= |digits| <= 3 && (rest == "" || !IsDigit(rest[0]))
    ensures ReadLength(slash, slash + (digits + rest)) == (Some(DecimalValue(digits)), rest)
  {
    var s := slash + (digits + rest);
    assert s[|slash|..] == digits + rest;
    LeadingDigitsOf(digits, rest, 3);
    LengthFrom(slash, s, digits);
    RestBehind(slash, digits, rest);
  }

  lemma RestBehind(slash: string, digits: string, rest: string)
    ensures (slash + (digits + rest))[|slash| + |digits|..] == rest
  {
  }

  lemma LengthFrom(slash: string, s: string, digits: string)
    requires StartsWith(s, slash) && LeadingDigits(s[|slash|..], 3) == digits && digits != ""
    requires |slash| + |digits| <= |s|
    ensures ReadLength(slash, s) == (Some(DecimalValue(digits)), s[|slash| + |digits|..])
  {
  }

  lemma LengthAbsent(slash: string, s: string)
    requires !StartsWith(s, slash) || s[|slash|..] == "" || !IsDigit(s[|slash|])
    ensures ReadLength(slash, s) == (None, s)
  {
  }

  lemma LengthSplit(slash: string, s: string) returns (digits: string)
    requires ReadLength(slash, s).0.Some?
    ensures Digits(digits) && 1 <= |digits| <= 3
    ensures s == slash + (digits + ReadLength(slash, s).1) && ReadLength(slash, s).0 == Some(DecimalValue(digits))
  {
    digits := LeadingDigits(s[|slash|..], 3);
    LeadingDigitsAre(s[|slash|..], 3);
    LeadingDigitsPrefix(s[|slash|..], 3);
    assert s[|slash|..] == digits + s[|slash| + |digits|..];
  }

  // ---------------------------------------------------------------- hosts and lengths

  function Lengths(ip4: Option<string>, ip6: Option<string>): string {
    Optional("/", ip4) + Optional("//", ip6)
  }

  function AllLengths(s: string): (Option<nat>, Option<nat>, string) {
    var (ip4, rest4) := ReadLength("/", s);
    var (ip6, rest6) := ReadLength("//", rest4);
    (ip4, ip6, rest6)
  }

  function Value(digits: Option<string>): Option<nat> {
    if digits.Some? then Some(DecimalValue(digits.value)) else None
  }

  predicate DigitsLike(digits: Option<string>) {
    digits.Some? ==> 1 <= |digits.value| <= 3 && Digits(digits.value)
  }

  lemma LongLengthRead(ip6: Option<string>)
    requires DigitsLike(ip6)
    ensures ReadLength("//", Optional("//", ip6)) == (Value(ip6), "")
    ensures ReadLength("/", Optional("//", ip6)) == (None, Optional("//", ip6))
  {
    var s := Optional("//", ip6);
    if ip6.Some? {
      assert ip6.value + "" == ip6.value;
      LengthRead("//", ip6.value, "");
      assert s[1] == '/';
    }
    LengthAbsent("/", s);
  }

  lemma LengthsRead(ip4: Option<string>, ip6: Option<string>)
    requires DigitsLike(ip4) && DigitsLike(ip6)
    ensures AllLengths(Lengths(ip4, ip6)) == (Value(ip4), Value(ip6), "")
  {
    LongLengthRead(ip6);
    var long := Optional("//", ip6);
    if ip4.Some? {
      assert long == "" || long[0] == '/';
      LengthRead("/", ip4.value, long);
      assert Lengths(ip4, ip6) == "/" + (ip4.value + long);
    } else {
      assert Lengths(ip4, ip6) == long;
    }
  }

  lemma LengthsSplit(s: string) returns (ip4: Option<string>, ip6: Option<string>)
    requires AllLengths(s).2 == ""
    ensures DigitsLike(ip4) && DigitsLike(ip6) && s == Lengths(ip4, ip6)
    ensures AllLengths(s) == (Value(ip4), Value(ip6), "")
  {
    ip4, ip6 := None, None;
    var rest := ReadLength("/", s).1;
    if ReadLength("//", rest).0.Some? {
      var long := LengthSplit("//", rest);
      ip6 := Some(long);
      assert long + "" == long;
    }
    assert rest == Optional("//", ip6);
    if ReadLength("/", s).0.Some? {
      var short := LengthSplit("/", s);
      ip4 := Some(short);
      assert "/" + (short + rest) == "/" + short + rest;
    }
  }

  function HostPart(rest: string): string {
    if StartsWith(rest, ":") then Before(rest[1..], '/') else ""
  }

  /** What is left for the lengths. */
  function Remainder(rest: string): string {
    if HostPart(rest) == "" then rest else rest[1 + |HostPart(rest)|..]
  }

  /** The text before the lengths: a colon and a host without a slash, or nothing. */
  lemma HostSplit(host: Option<string>, tail: string)
    requires HostLike(host) && (tail == "" || tail[0] == '/')
    ensures Remainder(Optional(":", host) + tail) == tail
  {
    var rest := Optional(":", host) + tail;
    if host.Some? {
      assert rest[1..] == host.value + tail;
      BeforeSlash(host.value, tail);
      assert rest[1 + |host.value|..] == tail;
    } else {
      assert rest == tail;
    }
  }

  lemma BeforeSlash(host: string, tail: string)
    requires '/' !in host && (tail == "" || tail[0] == '/')
    ensures Before(host + tail, '/') == host
  {
    if tail == "" {
      assert host + tail == host;
    } else {
      assert host + tail == host + ['/'] + tail[1..];
      BeforeUnique(host, '/', tail[1..]);
    }
  }

  predicate WithinLengths(ip4: Option<nat>, ip6: Option<nat>) {
    (ip4.Some? ==> ip4.value <= 32) && (ip6.Some? ==> ip6.value <= 128)
  }

  lemma CheckByLengths(rest: string)
    ensures var (ip4, ip6, left) := AllLengths(Remainder(rest));
            CheckAddressMechanism(rest) == None <==> left == "" && WithinLengths(ip4, ip6)
  {
  }

  lemma LengthIs(digits: Option<string>, limit: nat)
    ensures LengthLike(digits, limit) <==>
              DigitsLike(digits) && (Value(digits).Some? ==> Value(digits).value <= limit)
  {
    if DigitsLike(digits) && digits.Some? {
      DecimalIsNumber(digits.value);
    }
  }

  lemma LengthsLike(ip4: Option<string>, ip6: Option<string>)
    ensures LengthLike(ip4, 32) && LengthLike(ip6, 128) <==>
              DigitsLike(ip4) && DigitsLike(ip6) && WithinLengths(Value(ip4), Value(ip6))
  {
    LengthIs(ip4, 32);
    LengthIs(ip6, 128);
  }

  /** What may stand behind the name of `a` or `mx`. */
  lemma HostsAccepted(host: Option<string>, ip4: Option<string>, ip6: Option<string>)
    requires HostLike(host) && LengthLike(ip4, 32) && LengthLike(ip6, 128)
    ensures CheckAddressMechanism(Optional(":", host) + Lengths(ip4, ip6)) == None
  {
    LengthsLike(ip4, ip6);
    HostsRead(host, ip4, ip6);
  }

  lemma HostsRead(host: Option<string>, ip4: Option<string>, ip6: Option<string>)
    requires HostLike(host) && DigitsLike(ip4) && DigitsLike(ip6) && WithinLengths(Value(ip4), Value(ip6))
    ensures CheckAddressMechanism(Optional(":", host) + Lengths(ip4, ip6)) == None
  {
    var tail := Lengths(ip4, ip6);
    SlashFirst(ip4, ip6);
    HostSplit(host, tail);
    CheckByLengths(Optional(":", host) + tail);
    LengthsRead(ip4, ip6);
  }

  lemma SlashFirst(ip4: Option<string>, ip6: Option<string>)
    ensures Lengths(ip4, ip6) == "" || Lengths(ip4, ip6)[0] == '/'
  {
  }

  lemma HostsFound(rest: string) returns (host: Option<string>, ip4: Option<string>, ip6: Option<string>)
    requires CheckAddressMechanism(rest) == None
    ensures HostLike(host) && LengthLike(ip4, 32) && LengthLike(ip6, 128)
    ensures rest == Optional(":", host) + Lengths(ip4, ip6)
  {
    CheckByLengths(rest);
    ip4, ip6 := LengthsSplit(Remainder(rest));
    LengthsLike(ip4, ip6);
    if HostPart(rest) == "" {
      host := None;
      assert Optional(":", host) + rest == rest;
    } else {
      host := Some(HostPart(rest));
      HostBack(rest, HostPart(rest));
    }
  }

  lemma HostBack(rest: string, found: string)
    requires StartsWith(rest, ":") && found <= rest[1..]
    ensures rest == ":" + found + rest[1 + |found|..]
  {
    assert rest[..1] == ":";
  }

  // ---------------------------------------------------------------- mechanisms

  const WORDS: set<string> := {"all", "a", "mx", "ptr", "include", "exists", "ip4", "ip6"}

  lemma WordLetters(word: string)
    requires word in WORDS
    ensures word != "" && 'a' <= word[0] <= 'z'
    ensures forall i | 0 <= i < |word| :: word[i] !in {':', '/', '='}
  {
  }

  /** A name spelled in any case. */
  lemma NameLetters(name: string)
    requires Lower(name) in WORDS
    ensures name != "" && !IsQualifier(name[0])
    ensures ':' !in name && '/' !in name && '=' !in name
  {
    WordLetters(Lower(name));
    forall i | 0 <= i < |name|
      ensures name[i] !in {':', '/', '='}
    {
      assert Lower(name)[i] == LowerChar(name[i]);
    }
    assert Lower(name)[0] == LowerChar(name[0]);
  }

  lemma NameBefore(name: string, tail: string)
    requires ':' !in name && '/' !in name && (tail == "" || tail[0] == ':' || tail[0] == '/')
    ensures MechanismName(name + tail) == Lower(name)
  {
    var term := name + tail;
    if tail == "" {
      assert term == name;
    } else if tail[0] == ':' {
      assert term == name + [':'] + tail[1..];
      BeforeUnique(name, ':', tail[1..]);
    } else {
      BeforeColon(name, tail);
      BeforeSlash(name, Before(tail, ':'));
    }
  }

  lemma {:induction false} BeforeColon(name: string, tail: string)
    requires ':' !in name
    ensures Before(name + tail, ':') == name + Before(tail, ':')
  {
    if name == "" {
      assert name + tail == tail;
    } else {
      assert name[0] in name && (name + tail)[1..] == name[1..] + tail;
      assert forall c <- name[1..] :: c in name;
      BeforeColon(name[1..], tail);
    }
  }

  function Tail(f: Form): string {
    match f
    case Modifier(_, value) => "=" + value
    case All(_) => ""
    case Hosts(_, host, ip4, ip6) => Optional(":", host) + Lengths(ip4, ip6)
    case Ptr(_, host) => Optional(":", host)
    case Target(_, domain) => ":" + domain
    case Network(_, text) => ":" + text
  }

  lemma WrittenTail(f: Form)
    ensures Written(f) == f.name + Tail(f)
  {
  }

  lemma TailStart(f: Form)
    requires !f.Modifier?
    ensures Tail(f) == "" || Tail(f)[0] == ':' || Tail(f)[0] == '/'
  {
  }

  lemma NamedForm(ip: Ip, f: Form)
    requires Legal(ip, f) && !f.Modifier?
    ensures Lower(f.name) in WORDS && MechanismName(Written(f)) == Lower(f.name)
  {
    NameLetters(f.name);
    WrittenTail(f);
    TailStart(f);
    NameBefore(f.name, Tail(f));
  }

  lemma HostsForm(ip: Ip, f: Form)
    requires Legal(ip, f) && f.Hosts?
    ensures CheckMechanism(ip, Written(f)) == None
  {
    NamedForm(ip, f);
    WrittenTail(f);
    assert Written(f)[|f.name|..] == Tail(f);
    HostsAccepted(f.host, f.ip4, f.ip6);
    CheckedHosts(ip, Written(f), Lower(f.name));
  }

  lemma CheckedHosts(ip: Ip, term: string, name: string)
    requires name in {"a", "mx"} && MechanismName(term) == name && |name| <= |term|
    ensures CheckMechanism(ip, term) == CheckAddressMechanism(term[|name|..])
  {
  }

  lemma LowerHead(name: string, tail: string)
    ensures Lower(name + tail) == Lower(name) + Lower(tail)
    ensures Lower(":") == ":"
  {
    LowerConcat(name, tail);
  }

  lemma ColonForm(name: string, text: string)
    ensures StartsWith(Lower(name + ":" + text), Lower(name) + ":")
    ensures (name + ":" + text)[|name| + 1..] == text && |name + ":" + text| == |name| + 1 + |text|
  {
    assert name + ":" + text == name + (":" + text);
    LowerHead(name, ":" + text);
    LowerHead(":", text);
  }

  lemma TargetForm(ip: Ip, f: Form)
    requires Legal(ip, f) && f.Target?
    ensures CheckMechanism(ip, Written(f)) == None
  {
    NamedForm(ip, f);
    ColonForm(f.name, f.domain);
    CheckedTarget(ip, Written(f), Lower(f.name));
  }

  lemma CheckedTarget(ip: Ip, term: string, name: string)
    requires name in {"include", "exists"} && MechanismName(term) == name
    ensures CheckMechanism(ip, term) == None <==> StartsWith(Lower(term), name + ":") && |term| > |name| + 1
  {
  }

  lemma NetworkForm(ip: Ip, f: Form)
    requires Legal(ip, f) && f.Network?
    ensures CheckMechanism(ip, Written(f)) == None
  {
    NamedForm(ip, f);
    ColonForm(f.name, f.text);
    assert |f.name| == |Lower(f.name)| == 3;
    CheckedNetwork(ip, Written(f), Lower(f.name));
  }

  lemma CheckedNetwork(ip: Ip, term: string, name: string)
    requires name in {"ip4", "ip6"} && MechanismName(term) == name && |term| >= 4
    ensures CheckMechanism(ip, term) == None <==>
              StartsWith(Lower(term), name + ":") && ip.network(term[4..]) == Some(if name == "ip4" then 4 else 6)
  {
  }

  lemma PtrForm(ip: Ip, f: Form)
    requires Legal(ip, f) && f.Ptr?
    ensures CheckMechanism(ip, Written(f)) == None
  {
    NamedForm(ip, f);
    NameLetters(f.name);
    assert |f.name| == |Lower(f.name)| == 3;
    CheckedPtr(ip, Written(f));
    if f.host.Some? {
      assert Written(f)[3] == ':';
    }
  }

  lemma CheckedPtr(ip: Ip, term: string)
    requires MechanismName(term) == "ptr" && |term| >= 3
    ensures CheckMechanism(ip, term) == None <==>
              |term| == 3 || (term[3] == ':' && |term| > 4 && '/' !in term)
  {
  }

  lemma AllForm(ip: Ip, f: Form)
    requires Legal(ip, f) && f.All?
    ensures CheckMechanism(ip, Written(f)) == None
  {
    NamedForm(ip, f);
  }

  /** Every legal mechanism is accepted, under its name. */
  lemma MechanismAccepted(ip: Ip, f: Form)
    requires Legal(ip, f) && !f.Modifier?
    ensures CheckMechanism(ip, Written(f)) == None && MechanismName(Written(f)) == Lower(f.name)
  {
    NamedForm(ip, f);
    match f
    case All(_) => AllForm(ip, f);
    case Hosts(_, _, _, _) => HostsForm(ip, f);
    case Ptr(_, _) => PtrForm(ip, f);
    case Target(_, _) => TargetForm(ip, f);
    case Network(_, _) => NetworkForm(ip, f);
  }

  // ---------------------------------------------------------------- every accepted mechanism has a form

  lemma NameSpelled(term: string) returns (name: string)
    ensures name <= term && Lower(name) == MechanismName(term)
  {
    name := Before(Before(term, ':'), '/');
  }

  lemma Known(ip: Ip, term: string)
    requires CheckMechanism(ip, term) == None
    ensures MechanismName(term) in WORDS
  {
  }

  lemma HostsFormFound(ip: Ip, term: string) returns (f: Form)
    requires CheckMechanism(ip, term) == None && MechanismName(term) in {"a", "mx"}
    ensures f.Hosts? && Legal(ip, f) && Written(f) == term && Lower(f.name) == MechanismName(term)
  {
    var name := NameSpelled(term);
    CheckedHosts(ip, term, MechanismName(term));
    var rest := term[|name|..];
    var host, ip4, ip6 := HostsFound(rest);
    f := Hosts(name, host, ip4, ip6);
    HostsWritten(ip, name, rest, host, ip4, ip6);
    Rejoined(term, name);
  }

  lemma HostsWritten(ip: Ip, name: string, rest: string, host: Option<string>, ip4: Option<string>, ip6: Option<string>)
    requires Lower(name) in {"a", "mx"} && HostLike(host) && LengthLike(ip4, 32) && LengthLike(ip6, 128)
    requires rest == Optional(":", host) + Lengths(ip4, ip6)
    ensures Legal(ip, Hosts(name, host, ip4, ip6)) && Written(Hosts(name, host, ip4, ip6)) == name + rest
  {
  }

  lemma Rejoined(term: string, name: string)
    requires name <= term
    ensures name + term[|name|..] == term
  {
  }

  lemma ColonSplit(term: string, name: string, word: string)
    requires name <= term && Lower(name) == word && StartsWith(Lower(term), word + ":")
    ensures |term| > |name| && term == name + ":" + term[|name| + 1..]
  {
    assert Lower(term)[|name|] == (word + ":")[|name|] == ':';
    assert LowerChar(term[|name|]) == ':';
    assert term[..|name|] == name;
  }

  lemma TargetFormFound(ip: Ip, term: string) returns (f: Form)
    requires CheckMechanism(ip, term) == None && MechanismName(term) in {"include", "exists"}
    ensures f.Target? && Legal(ip, f) && Written(f) == term && Lower(f.name) == MechanismName(term)
  {
    var name := NameSpelled(term);
    CheckedTarget(ip, term, MechanismName(term));
    ColonSplit(term, name, MechanismName(term));
    f := Target(name, term[|name| + 1..]);
  }

  lemma NetworkFormFound(ip: Ip, term: string) returns (f: Form)
    requires CheckMechanism(ip, term) == None && MechanismName(term) in {"ip4", "ip6"}
    ensures f.Network? && Legal(ip, f) && Written(f) == term && Lower(f.name) == MechanismName(term)
  {
    var name := NameSpelled(term);
    NetworkLong(ip, term, MechanismName(term));
    CheckedNetwork(ip, term, MechanismName(term));
    ColonSplit(term, name, MechanismName(term));
    f := Network(name, term[4..]);
  }

  lemma NetworkLong(ip: Ip, term: string, name: string)
    requires CheckMechanism(ip, term) == None && MechanismName(term) == name && name in {"ip4", "ip6"}
    ensures |term| >= 4
  {
    assert StartsWith(Lower(term), name + ":");
  }

  lemma PtrFormFound(ip: Ip, term: string) returns (f: Form)
    requires CheckMechanism(ip, term) == None && MechanismName(term) == "ptr"
    ensures f.Ptr? && Legal(ip, f) && Written(f) == term && Lower(f.name) == MechanismName(term)
  {
    var name := NameSpelled(term);
    CheckedPtr(ip, term);
    if |term| == 3 {
      f := Ptr(name, None);
      assert name == term;
    } else {
      f := Ptr(name, Some(term[4..]));
      assert term == name + ":" + term[4..];
    }
  }

  /** Every accepted mechanism is a legal one, written down. */
  lemma MechanismFound(ip: Ip, term: string) returns (f: Form)
    requires CheckMechanism(ip, term) == None
    ensures !f.Modifier? && Legal(ip, f) && Written(f) == term && Lower(f.name) == MechanismName(term)
  {
    Known(ip, term);
    var word := MechanismName(term);
    if word == "all" {
      f := All(term);
      AllOnly(ip, term);
    } else if word in {"a", "mx"} {
      f := HostsFormFound(ip, term);
    } else if word == "ptr" {
      f := PtrFormFound(ip, term);
    } else if word in {"include", "exists"} {
      f := TargetFormFound(ip, term);
    } else {
      f := NetworkFormFound(ip, term);
    }
  }

  lemma AllOnly(ip: Ip, term: string)
    requires CheckMechanism(ip, term) == None && MechanismName(term) == "all"
    ensures Lower(term) == "all"
  {
  }

  // ---------------------------------------------------------------- terms

  /** Mechanisms may carry one qualifier. */
  predicate SignLike(sign: string, f: Form) {
    sign == "" || (|sign| == 1 && sign[0] in "+-~?" && !f.Modifier?)
  }

  /** An equals sign makes a term a modifier. */
  predicate Fits(f: Form) {
    f.Modifier? || '=' !in Written(f)
  }

  /** What a term is read as: the name of a modifier, and whether it costs a lookup. */
  function Reading(f: Form): Term {
    Term(if f.Modifier? then Some(Lower(f.name)) else None,
         f.Hosts? || f.Ptr? || f.Target? || (f.Modifier? && Lower(f.name) == "redirect"))
  }

  lemma ModifierText(name: string, value: string)
    requires NameLike(name) && value != ""
    ensures var term := name + "=" + value;
            && '=' in term && Before(term, '=') == name && After(term, '=') == value
            && IsModifierName(name) && !IsQualifier(term[0])
  {
    forall i | 0 <= i < |name|
      ensures name[i] != '='
    {
    }
    BeforeUnique(name, '=', value);
    assert name + "=" + value == name + ['='] + value;
  }

  lemma ModifierAccepted(ip: Ip, f: Form)
    requires f.Modifier? && Legal(ip, f)
    ensures ReadTerm(ip, Written(f)) == Success(Reading(f))
  {
    ModifierText(f.name, f.value);
  }

  lemma ReadMechanismAs(ip: Ip, raw: string, term: string)
    requires Bare(raw) == term && term != "" && '=' !in term && CheckMechanism(ip, term) == None
    ensures ReadTerm(ip, raw)
         == Success(Term(None, MechanismName(term) in {"a", "mx", "ptr", "include", "exists"}))
  {
  }

  /** Every legal term is accepted, and read as what it is. */
  lemma TermAccepted(ip: Ip, sign: string, f: Form)
    requires SignLike(sign, f) && Legal(ip, f) && Fits(f)
    ensures ReadTerm(ip, sign + Written(f)) == Success(Reading(f))
  {
    var term := Written(f);
    if f.Modifier? {
      ModifierAccepted(ip, f);
      assert sign + term == term;
    } else {
      MechanismAccepted(ip, f);
      NamedForm(ip, f);
      NameLetters(f.name);
      WrittenTail(f);
      assert term[0] == f.name[0];
      BareOfSigned(sign, term);
      ReadMechanismAs(ip, sign + term, term);
      LookupNames(ip, f);
    }
  }

  lemma BareOfSigned(sign: string, term: string)
    requires term != "" && !IsQualifier(term[0]) && (sign == "" || (|sign| == 1 && IsQualifier(sign[0])))
    ensures Bare(sign + term) == term
  {
    if sign == "" {
      assert sign + term == term;
    } else {
      assert (sign + term)[1..] == term;
    }
  }

  lemma LookupNames(ip: Ip, f: Form)
    requires Legal(ip, f) && !f.Modifier?
    ensures Lower(f.name) in {"a", "mx", "ptr", "include", "exists"} <==> f.Hosts? || f.Ptr? || f.Target?
  {
  }

  lemma ModifierFound(ip: Ip, raw: string) returns (f: Form)
    requires ReadTerm(ip, raw).Success? && '=' in Bare(raw)
    ensures f.Modifier? && Legal(ip, f) && Written(f) == raw
  {
    f := Modifier(Before(raw, '='), After(raw, '='));
    ReadModifier(ip, raw);
    NameIsLike(f.name);
    assert f.name + "=" + f.value == f.name + ['='] + f.value;
  }

  lemma ReadModifier(ip: Ip, raw: string)
    requires ReadTerm(ip, raw).Success? && '=' in Bare(raw)
    ensures Bare(raw) == raw && IsModifierName(Before(raw, '=')) && After(raw, '=') != ""
  {
  }

  lemma NameIsLike(name: string)
    requires IsModifierName(name)
    ensures NameLike(name)
  {
    forall i | 0 < i < |name|
      ensures name[i] in name[1..]
    {
      assert name[1..][i - 1] == name[i];
    }
  }

  lemma MechanismRead(ip: Ip, raw: string)
    requires ReadTerm(ip, raw).Success? && '=' !in Bare(raw)
    ensures CheckMechanism(ip, Bare(raw)) == None
  {
  }

  /** Every accepted term is a legal one. */
  lemma TermFound(ip: Ip, raw: string) returns (sign: string, f: Form)
    requires ReadTerm(ip, raw).Success?
    ensures SignLike(sign, f) && Legal(ip, f) && Fits(f) && raw == sign + Written(f)
  {
    if '=' in Bare(raw) {
      f := ModifierFound(ip, raw);
      sign := "";
    } else {
      MechanismRead(ip, raw);
      f := MechanismFound(ip, Bare(raw));
      sign := SignOf(raw);
    }
  }

  lemma SignOf(raw: string) returns (sign: string)
    ensures raw == sign + Bare(raw) && (sign == "" || (|sign| == 1 && IsQualifier(sign[0])))
  {
    sign := if raw != "" && IsQualifier(raw[0]) then raw[..1] else "";
  }

  /** The grammar is exact. */
  lemma TermGrammar(ip: Ip, raw: string)
    ensures ReadTerm(ip, raw).Success? <==>
            exists sign, f :: SignLike(sign, f) && Legal(ip, f) && Fits(f) && raw == sign + Written(f)
  {
    if ReadTerm(ip, raw).Success? {
      var sign, f := TermFound(ip, raw);
    }
    if sign, f :| SignLike(sign, f) && Legal(ip, f) && Fits(f) && raw == sign + Written(f) {
      TermAccepted(ip, sign, f);
    }
  }
}
