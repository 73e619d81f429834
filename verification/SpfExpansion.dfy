/** The bounded `include`/`redirect` walk behind the published-SPF check, compared with the unbounded expansion tree.
    Lookups are counted here as the check counts them; `SpfStandard` compares that count with the one of section 4.6.4
    of RFC 7208. */
module SpfExpansion {
  import opened Wrappers
  import opened Text
  import opened Sequences

  // ---------------------------------------------------------------- terms of one record

  const LOOKUP_LIMIT: nat := 10
  const MAX_CHILDREN: nat := 10
  const MAX_DEPTH: nat := 5

  function StripQualifiers(term: string): string {
    if term != "" && term[0] in "+-~?" then StripQualifiers(term[1..]) else term
  }

  function Mechanism(term: string): string {
    Lower(Before(Before(term, ':'), '='))
  }

  function TermLookups(raw: string): nat {
    if Mechanism(StripQualifiers(raw)) in {"a", "mx", "ptr", "include", "exists", "redirect"} then 1 else 0
  }

  function TermTargets(raw: string): seq<string> {
    var term := StripQualifiers(raw);
    if Mechanism(term) == "include" && ':' in term then [After(term, ':')]
    else if Mechanism(term) == "redirect" && '=' in term then [After(term, '=')]
    else []
  }

  function LookupsOf(terms: seq<string>): nat {
    if terms == [] then 0 else LookupsOf(terms[..|terms| - 1]) + TermLookups(terms[|terms| - 1])
  }

  function TargetsOf(terms: seq<string>): seq<string> {
    if terms == [] then [] else TargetsOf(terms[..|terms| - 1]) + TermTargets(terms[|terms| - 1])
  }

  function Terms(record: string): seq<string> {
    var tokens := Split(record);
    if tokens == [] then [] else tokens[1..]
  }

  /** Terms of the record that cost a DNS lookup. */
  function Direct(record: string): nat {
    LookupsOf(Terms(record))
  }

  /** The domains named by the record's `include` and `redirect` terms, in order. */
  function Nested(record: string): seq<string> {
    TargetsOf(Terms(record))
  }

  method SpfLookupTerms(record: string) returns (count: nat, nested: seq<string>)
    ensures count == Direct(record) && nested == Nested(record)
    ensures |nested| <= count
  {
    count, nested := 0, [];
    var tokens := Split(record);
    var terms := if tokens == [] then [] else tokens[1..];
    for i := 0 to |terms|
      invariant count == LookupsOf(terms[..i]) && nested == TargetsOf(terms[..i])
    {
      assert terms[..i + 1][..i] == terms[..i];
      var term := StripQualifiers(terms[i]);
      var mechanism := Mechanism(term);
      if mechanism in {"a", "mx", "ptr", "include", "exists", "redirect"} {
        count := count + 1;
      }
      if mechanism == "include" && ':' in term {
        nested := nested + [After(term, ':')];
      } else if mechanism == "redirect" && '=' in term {
        nested := nested + [After(term, '=')];
      }
    }
    assert terms[..|terms|] == terms;
    TargetsCounted(terms);
  }

  /** Every nested domain was counted as a lookup. */
  lemma {:induction false} TargetsCounted(terms: seq<string>)
    ensures |TargetsOf(terms)| <= LookupsOf(terms)
  {
    if terms != [] {
      TargetsCounted(terms[..|terms| - 1]);
    }
  }

  // ---------------------------------------------------------------- the walk

  /** What the walk sees of the world: host-name normalisation, and the TXT records each name answers.
      No name is asked twice (`QueryCost`), so answers that change over time are covered as well. */
  datatype Dns = Dns(safe: string -> Option<string>, txt: string -> seq<string>)

  predicate IsSpf(value: string) {
    StartsWith(Lower(value), "v=spf1")
  }

  function KeepSpf(values: seq<string>): seq<string> {
    if values == [] then []
    else KeepSpf(values[..|values| - 1]) + (if IsSpf(values[|values| - 1]) then [values[|values| - 1]] else [])
  }

  function SpfRecords(dns: Dns, domain: string): seq<string> {
    KeepSpf(dns.txt(domain))
  }

  /** The total and the completeness flag the walk returns, the final visited set, and all TXT queries so far. */
  datatype Walk = Walk(total: nat, incomplete: bool, visited: set<string>, queries: seq<string>)

  function Levels(depth: nat): nat {
    if depth < MAX_DEPTH then MAX_DEPTH - depth else 0
  }

  function Slice(nested: seq<string>): seq<string> {
    if |nested| <= MAX_CHILDREN then nested else nested[..MAX_CHILDREN]
  }

  /** The result of walking one record, with `visited` and `queries` as the walk finds them. */
  function Expand(dns: Dns, record: string, visited: set<string>, queries: seq<string>, depth: nat): Walk
    decreases Levels(depth), 2, 0
  {
    if depth >= MAX_DEPTH then Walk(Direct(record), Nested(record) != [], visited, queries)
    else Children(dns, Slice(Nested(record)), depth, Walk(Direct(record), false, visited, queries))
  }

  /** The walk's loop, started at `acc` with the children `ns` still to do. */
  function Children(dns: Dns, ns: seq<string>, depth: nat, acc: Walk): Walk
    requires depth < MAX_DEPTH
    decreases Levels(depth), 1, |ns|
  {
    if ns == [] then acc
    else
      var (next, stop) := Visit(dns, ns[0], depth, acc);
      if stop then next else Children(dns, ns[1..], depth, next)
  }

  lemma ExpandStart(dns: Dns, record: string, visited: set<string>, queries: seq<string>, depth: nat)
    requires depth < MAX_DEPTH
    ensures Expand(dns, record, visited, queries, depth)
         == Children(dns, Slice(Nested(record)), depth, Walk(Direct(record), false, visited, queries))
  {
  }

  /** One child: the state after it, and whether the loop stops there. */
  function Visit(dns: Dns, raw: string, depth: nat, acc: Walk): (Walk, bool)
    requires depth < MAX_DEPTH
    decreases Levels(depth), 0, 0
  {
    if Skipped(dns, raw, acc.visited) then (acc.(incomplete := true), false)
    else
      var domain := dns.safe(raw).value;
      var asked := Asked(acc, domain);
      if |SpfRecords(dns, domain)| != 1 then (asked.(incomplete := true), false)
      else
        var merged := Merge(asked, Expand(dns, SpfRecords(dns, domain)[0], asked.visited, asked.queries, depth + 1));
        (merged, merged.total > LOOKUP_LIMIT)
  }

  lemma VisitResolved(dns: Dns, raw: string, depth: nat, acc: Walk, domain: string, record: string)
    requires depth < MAX_DEPTH
    requires dns.safe(raw) == Some(domain) && domain !in acc.visited && SpfRecords(dns, domain) == [record]
    ensures var asked := Asked(acc, domain);
            var merged := Merge(asked, Expand(dns, record, asked.visited, asked.queries, depth + 1));
            Visit(dns, raw, depth, acc) == (merged, merged.total > LOOKUP_LIMIT)
  {
  }

  lemma VisitSkipped(dns: Dns, raw: string, depth: nat, acc: Walk)
    requires depth < MAX_DEPTH && Skipped(dns, raw, acc.visited)
    ensures Visit(dns, raw, depth, acc) == (acc.(incomplete := true), false)
  {
  }

  lemma VisitAmbiguous(dns: Dns, raw: string, depth: nat, acc: Walk)
    requires depth < MAX_DEPTH && !Skipped(dns, raw, acc.visited)
    requires |SpfRecords(dns, dns.safe(raw).value)| != 1
    ensures Visit(dns, raw, depth, acc) == (Asked(acc, dns.safe(raw).value).(incomplete := true), false)
  {
  }

  lemma ChildrenAt(dns: Dns, ns: seq<string>, i: nat, depth: nat, acc: Walk)
    requires i < |ns| && depth < MAX_DEPTH
    ensures var (next, stop) := Visit(dns, ns[i], depth, acc);
            Children(dns, ns[i..], depth, acc) == if stop then next else Children(dns, ns[i + 1..], depth, next)
  {
    assert ns[i..][1..] == ns[i + 1..];
  }

  predicate Skipped(dns: Dns, raw: string, visited: set<string>) {
    dns.safe(raw).None? || dns.safe(raw).value in visited
  }

  function Asked(acc: Walk, domain: string): Walk {
    acc.(visited := acc.visited + {domain}, queries := acc.queries + [domain])
  }

  function Merge(acc: Walk, sub: Walk): Walk {
    Walk(acc.total + sub.total, acc.incomplete || sub.incomplete, sub.visited, sub.queries)
  }

  /** The DNS worker and the `visited` set that every level of the recursion shares and mutates. */
  class Walker {
    const dns: Dns
    var visited: set<string>
    var queries: seq<string>

    constructor (dns: Dns, root: string)
      ensures this.dns == dns && visited == {root} && queries == []
    {
      this.dns := dns;
      visited := {root};
      queries := [];
    }

    method Resolve(domain: string) returns (records: seq<string>)
      modifies this`queries
      ensures queries == old(queries) + [domain]
      ensures records == SpfRecords(dns, domain)
    {
      queries := queries + [domain];
      var values := dns.txt(domain);
      records := [];
      for i := 0 to |values|
        invariant records == KeepSpf(values[..i])
      {
        assert values[..i + 1][..i] == values[..i];
        if IsSpf(values[i]) {
          records := records + [values[i]];
        }
      }
      assert values[..|values|] == values;
    }

    method SpfRecursiveLookups(record: string, depth: nat) returns (total: nat, incomplete: bool)
      modifies this
      ensures Walk(total, incomplete, visited, queries) == Expand(dns, record, old(visited), old(queries), depth)
      decreases Levels(depth), 4
    {
      var direct, nested := SpfLookupTerms(record);
      if depth >= 5 {
        return direct, nested != [];
      }
      ExpandStart(dns, record, visited, queries, depth);
      total, incomplete := WalkChildren(if |nested| <= 10 then nested else nested[..10], direct, depth);
    }

    /** The loop over the children. */
    method WalkChildren(children: seq<string>, direct: nat, depth: nat) returns (total: nat, incomplete: bool)
      requires depth < MAX_DEPTH
      modifies this
      ensures Walk(total, incomplete, visited, queries)
           == Children(dns, children, depth, Walk(direct, false, old(visited), old(queries)))
      decreases Levels(depth), 3
    {
      ghost var result := Children(dns, children, depth, Walk(direct, false, visited, queries));
      total, incomplete := direct, false;
      for i := 0 to |children|
        invariant Children(dns, children[i..], depth, Walk(total, incomplete, visited, queries)) == result
      {
        ChildrenAt(dns, children, i, depth, Walk(total, incomplete, visited, queries));
        var stop;
        total, incomplete, stop := VisitChild(children[i], total, incomplete, depth);
        if stop {
          break;
        }
      }
    }

    /** The body of the loop above. */
    method VisitChild(raw: string, totalSoFar: nat, incompleteSoFar: bool, depth: nat)
      returns (total: nat, incomplete: bool, stop: bool)
      requires depth < MAX_DEPTH
      modifies this
      ensures (Walk(total, incomplete, visited, queries), stop)
           == Visit(dns, raw, depth, Walk(totalSoFar, incompleteSoFar, old(visited), old(queries)))
      decreases Levels(depth), 2
    {
      ghost var acc := Walk(totalSoFar, incompleteSoFar, visited, queries);
      var domain := dns.safe(raw);
      if domain.None? || domain.value in visited {
        VisitSkipped(dns, raw, depth, acc);
        return totalSoFar, true, false;
      }
      total, incomplete, stop := AskChild(raw, domain.value, totalSoFar, incompleteSoFar, depth);
    }

    /** The rest of the body, for a usable name not seen before. */
    method AskChild(ghost raw: string, domain: string, totalSoFar: nat, incompleteSoFar: bool, depth: nat)
      returns (total: nat, incomplete: bool, stop: bool)
      requires depth < MAX_DEPTH && dns.safe(raw) == Some(domain) && domain !in visited
      modifies this
      ensures (Walk(total, incomplete, visited, queries), stop)
           == Visit(dns, raw, depth, Walk(totalSoFar, incompleteSoFar, old(visited), old(queries)))
      decreases Levels(depth), 1
    {
      ghost var acc := Walk(totalSoFar, incompleteSoFar, visited, queries);
      visited := visited + {domain};
      var records := Resolve(domain);
      if |records| != 1 {
        VisitAmbiguous(dns, raw, depth, acc);
        return totalSoFar, true, false;
      }
      VisitResolved(dns, raw, depth, acc, domain, records[0]);
      total, incomplete := Descend(records[0], totalSoFar, incompleteSoFar, depth);
      stop := total > 10;
    }

    /** The recursive call, with its count and flag merged into the loop's. */
    method Descend(record: string, totalSoFar: nat, incompleteSoFar: bool, depth: nat)
      returns (total: nat, incomplete: bool)
      requires depth < MAX_DEPTH
      modifies this
      ensures Walk(total, incomplete, visited, queries)
           == Merge(Walk(totalSoFar, incompleteSoFar, old(visited), old(queries)),
                    Expand(dns, record, old(visited), old(queries), depth + 1))
      decreases Levels(depth), 0
    {
      var nestedCount, nestedIncomplete := SpfRecursiveLookups(record, depth + 1);
      total := totalSoFar + nestedCount;
      incomplete := incompleteSoFar || nestedIncomplete;
    }
  }

  // ---------------------------------------------------------------- query cost

  ghost function Elems(s: seq<string>): set<string> {
    set x | x in s
  }

  lemma ElemsConcat(a: seq<string>, b: seq<string>)
    ensures Elems(a + b) == Elems(a) + Elems(b)
  {
  }

  /** The queries of `w` are distinct, fresh with respect to `start`, and all that was added to it. */
  ghost predicate Fresh(w: Walk, start: set<string>) {
    && NoDup(w.queries)
    && Elems(w.queries) !! start
    && w.visited == start + Elems(w.queries)
  }

  lemma AskedFresh(acc: Walk, domain: string, start: set<string>)
    requires Fresh(acc, start) && domain !in acc.visited
    ensures Fresh(Asked(acc, domain), start)
  {
    ElemsConcat(acc.queries, [domain]);
    assert forall x | x in acc.queries :: x in Elems(acc.queries);
  }

  /** The walk terminates, never asks for a name twice or for one in `start`, asks for no more names than the
      total it returns, and makes at most ten queries for each level that queries. */
  lemma {:induction false} QueryCost(dns: Dns, record: string, acc: Walk, depth: nat, start: set<string>)
    requires Fresh(acc, start)
    ensures var w := Expand(dns, record, acc.visited, acc.queries, depth);
            && Fresh(w, start)
            && |acc.queries| <= |w.queries|
            && |w.queries| - |acc.queries| <= w.total
            && |w.queries| - |acc.queries| <= 10 * Levels(depth)
    decreases Levels(depth), 2, 0
  {
    if depth < MAX_DEPTH {
      TargetsCounted(Terms(record));
      ChildrenCost(dns, Slice(Nested(record)), depth,
                   Walk(Direct(record), false, acc.visited, acc.queries), |acc.queries|, start);
    }
  }

  lemma {:induction false} ChildrenCost(dns: Dns, ns: seq<string>, depth: nat, acc: Walk,
                                        before: nat, start: set<string>)
    requires depth < MAX_DEPTH
    requires Fresh(acc, start)
    requires before <= |acc.queries|
    requires |acc.queries| - before + |ns| <= acc.total
    requires |acc.queries| - before + |ns| <= 10
    ensures var w := Children(dns, ns, depth, acc);
            && Fresh(w, start)
            && |acc.queries| <= |w.queries|
            && |w.queries| - before <= w.total
            && |w.queries| - before <= 10 * Levels(depth)
    decreases Levels(depth), 1, |ns|
  {
    if ns != [] {
      var (next, stop) := Visit(dns, ns[0], depth, acc);
      VisitCost(dns, ns[0], depth, acc, start);
      if !stop {
        ChildrenCost(dns, ns[1..], depth, next, before, start);
      }
    }
  }

  /** One child costs its own query and those of its record; the loop goes on only if it added nothing or the total
      is still at most ten. */
  lemma {:induction false} VisitCost(dns: Dns, raw: string, depth: nat, acc: Walk, start: set<string>)
    requires depth < MAX_DEPTH && Fresh(acc, start)
    ensures var (next, stop) := Visit(dns, raw, depth, acc);
            && Fresh(next, start)
            && |acc.queries| <= |next.queries| <= |acc.queries| + 1 + 10 * Levels(depth + 1)
            && |next.queries| - |acc.queries| - 1 <= next.total - acc.total
            && (next.total <= LOOKUP_LIMIT || stop || (next.total == acc.total && |next.queries| <= |acc.queries| + 1))
    decreases Levels(depth), 0, 1
  {
    if Skipped(dns, raw, acc.visited) {
      VisitSkipped(dns, raw, depth, acc);
    } else {
      var domain := dns.safe(raw).value;
      AskedFresh(acc, domain, start);
      if |SpfRecords(dns, domain)| == 1 {
        VisitResolved(dns, raw, depth, acc, domain, SpfRecords(dns, domain)[0]);
        ResolvedCost(dns, SpfRecords(dns, domain)[0], Asked(acc, domain), depth, start);
      } else {
        VisitAmbiguous(dns, raw, depth, acc);
      }
    }
  }

  lemma {:induction false} ResolvedCost(dns: Dns, record: string, asked: Walk, depth: nat, start: set<string>)
    requires depth < MAX_DEPTH && Fresh(asked, start)
    ensures var merged := Merge(asked, Expand(dns, record, asked.visited, asked.queries, depth + 1));
            && Fresh(merged, start)
            && |asked.queries| <= |merged.queries| <= |asked.queries| + 10 * Levels(depth + 1)
            && |merged.queries| - |asked.queries| <= merged.total - asked.total
    decreases Levels(depth), 0, 0
  {
    QueryCost(dns, record, asked, depth + 1, start);
  }

  /** The published-SPF check walks from a record whose own domain is already visited: fifty queries at most. */
  lemma CheckCost(dns: Dns, record: string, root: string)
    ensures var w := Expand(dns, record, {root}, [], 0);
            NoDup(w.queries) && root !in w.queries && |w.queries| <= w.total && |w.queries| <= 50
  {
    QueryCost(dns, record, Walk(0, false, {root}, []), 0, {root});
    assert root !in Elems(Expand(dns, record, {root}, [], 0).queries);
  }

  // ---------------------------------------------------------------- exactness

  /** The unbounded expansion of a list of nested domains: for each domain its SPF record, the expansion of
      that record's own nested domains, and the expansion of the domains after it. */
  datatype Forest = Nil | Node(domain: string, record: string, kids: Forest, rest: Forest)

  /** `f` expands exactly the domains `ns`: all of them, each through its only SPF record, all the way down. */
  ghost predicate IsExpansion(dns: Dns, ns: seq<string>, f: Forest)
    decreases f
  {
    match f
    case Nil => ns == []
    case Node(domain, record, kids, rest) =>
      && ns != []
      && dns.safe(ns[0]) == Some(domain)
      && SpfRecords(dns, domain) == [record]
      && IsExpansion(dns, Nested(record), kids)
      && IsExpansion(dns, ns[1..], rest)
  }

  /** The lookup terms of all records of the expansion. */
  ghost function Lookups(f: Forest): nat {
    match f
    case Nil => 0
    case Node(_, record, kids, rest) => Direct(record) + Lookups(kids) + Lookups(rest)
  }

  ghost function Domains(f: Forest): seq<string> {
    match f
    case Nil => []
    case Node(domain, _, kids, rest) => [domain] + Domains(kids) + Domains(rest)
  }

  ghost function Height(f: Forest): nat {
    match f
    case Nil => 0
    case Node(_, _, kids, rest) => if Height(rest) <= Height(kids) then 1 + Height(kids) else Height(rest)
  }

  /** The DNS content determines the expansion. */
  lemma {:induction false} ExpansionUnique(dns: Dns, ns: seq<string>, f: Forest, g: Forest)
    requires IsExpansion(dns, ns, f) && IsExpansion(dns, ns, g)
    ensures f == g
    decreases f
  {
    if f.Node? {
      ExpansionUnique(dns, Nested(f.record), f.kids, g.kids);
      ExpansionUnique(dns, ns[1..], f.rest, g.rest);
    }
  }

  /** Totals and the incomplete flag only grow along the walk. */
  lemma {:induction false} WalkGrows(dns: Dns, ns: seq<string>, depth: nat, acc: Walk)
    requires depth < MAX_DEPTH
    ensures var w := Children(dns, ns, depth, acc);
            acc.total <= w.total && (acc.incomplete ==> w.incomplete)
    decreases |ns|
  {
    if ns != [] && !Visit(dns, ns[0], depth, acc).1 {
      WalkGrows(dns, ns[1..], depth, Visit(dns, ns[0], depth, acc).0);
    }
  }

  /** A complete walk with at most ten lookups has built the whole expansion: the ten-child slice, the depth
      cut and the early exit left nothing out. */
  lemma {:induction false} WalkedTree(dns: Dns, record: string, visited: set<string>, queries: seq<string>, depth: nat)
    returns (f: Forest)
    requires var w := Expand(dns, record, visited, queries, depth); !w.incomplete && w.total <= LOOKUP_LIMIT
    ensures IsExpansion(dns, Nested(record), f) && Height(f) <= Levels(depth)
    ensures var w := Expand(dns, record, visited, queries, depth);
            w.total == Direct(record) + Lookups(f) && w.queries == queries + Domains(f)
    decreases Levels(depth), 2, 0
  {
    if depth >= MAX_DEPTH {
      f := Nil;
    } else {
      TargetsCounted(Terms(record));
      var acc := Walk(Direct(record), false, visited, queries);
      WalkGrows(dns, Slice(Nested(record)), depth, acc);
      f := WalkedChildren(dns, Slice(Nested(record)), depth, acc);
    }
  }

  lemma {:induction false} WalkedChildren(dns: Dns, ns: seq<string>, depth: nat, acc: Walk) returns (f: Forest)
    requires depth < MAX_DEPTH
    requires var w := Children(dns, ns, depth, acc); !w.incomplete && w.total <= LOOKUP_LIMIT
    ensures IsExpansion(dns, ns, f) && Height(f) <= Levels(depth)
    ensures var w := Children(dns, ns, depth, acc);
            w.total == acc.total + Lookups(f) && w.queries == acc.queries + Domains(f)
    decreases Levels(depth), 1, |ns|
  {
    if ns == [] {
      f := Nil;
    } else {
      var (next, stop) := Visit(dns, ns[0], depth, acc);
      if !stop {
        WalkGrows(dns, ns[1..], depth, next);
      }
      CompleteVisit(dns, ns[0], depth, acc);
      var domain := dns.safe(ns[0]).value;
      var record := SpfRecords(dns, domain)[0];
      var kids := VisitWalked(dns, ns[0], depth, acc, domain, record);
      var rest := WalkedChildren(dns, ns[1..], depth, next);
      f := Node(domain, record, kids, rest);
      NodeDomains(f, acc.queries, acc.visited);
    }
  }

  /** A child that leaves the walk complete was resolved. */
  lemma CompleteVisit(dns: Dns, raw: string, depth: nat, acc: Walk)
    requires depth < MAX_DEPTH && !Visit(dns, raw, depth, acc).0.incomplete
    ensures !Skipped(dns, raw, acc.visited) && |SpfRecords(dns, dns.safe(raw).value)| == 1
  {
  }

  lemma VisitSub(dns: Dns, raw: string, depth: nat, acc: Walk, domain: string, record: string)
    requires depth < MAX_DEPTH
    requires dns.safe(raw) == Some(domain) && domain !in acc.visited && SpfRecords(dns, domain) == [record]
    requires var next := Visit(dns, raw, depth, acc).0; !next.incomplete && next.total <= LOOKUP_LIMIT
    ensures var (next, stop) := Visit(dns, raw, depth, acc);
            var sub := Expand(dns, record, Asked(acc, domain).visited, Asked(acc, domain).queries, depth + 1);
            && !sub.incomplete && sub.total <= LOOKUP_LIMIT && !stop
            && next.total == acc.total + sub.total && next.queries == sub.queries
  {
    VisitResolved(dns, raw, depth, acc, domain, record);
  }

  /** A child that leaves the walk complete and within the limit was expanded. */
  lemma {:induction false} VisitWalked(dns: Dns, raw: string, depth: nat, acc: Walk, domain: string, record: string)
    returns (kids: Forest)
    requires depth < MAX_DEPTH
    requires dns.safe(raw) == Some(domain) && domain !in acc.visited && SpfRecords(dns, domain) == [record]
    requires var next := Visit(dns, raw, depth, acc).0; !next.incomplete && next.total <= LOOKUP_LIMIT
    ensures IsExpansion(dns, Nested(record), kids) && Height(kids) <= Levels(depth + 1)
    ensures var (next, stop) := Visit(dns, raw, depth, acc);
            && !stop
            && next.total == acc.total + Direct(record) + Lookups(kids)
            && next.queries == acc.queries + [domain] + Domains(kids)
    decreases Levels(depth), 0, 0
  {
    VisitSub(dns, raw, depth, acc, domain, record);
    kids := WalkedTree(dns, record, Asked(acc, domain).visited, Asked(acc, domain).queries, depth + 1);
  }

  lemma AppendAssociative(a: seq<string>, b: seq<string>, c: seq<string>, d: seq<string>)
    ensures a + b + c + d == a + (b + c + d)
  {
  }

  lemma NodeDomains(f: Forest, queries: seq<string>, visited: set<string>)
    requires f.Node?
    ensures queries + [f.domain] + Domains(f.kids) + Domains(f.rest) == queries + Domains(f)
    ensures visited + {f.domain} + Elems(Domains(f.kids)) + Elems(Domains(f.rest)) == visited + Elems(Domains(f))
  {
    var below, beside := Domains(f.kids), Domains(f.rest);
    AppendAssociative(queries, [f.domain], below, beside);
    ElemsConcat([f.domain] + below, beside);
    ElemsConcat([f.domain], below);
    assert Elems([f.domain]) == {f.domain};
  }

  lemma NodeDistinct(f: Forest)
    requires f.Node? && NoDup(Domains(f))
    ensures NoDup(Domains(f.kids)) && NoDup(Domains(f.rest))
    ensures f.domain !in Elems(Domains(f.kids)) && f.domain !in Elems(Domains(f.rest))
    ensures Elems(Domains(f.kids)) !! Elems(Domains(f.rest))
    ensures f.domain in Elems(Domains(f))
    ensures Elems(Domains(f.kids)) <= Elems(Domains(f)) && Elems(Domains(f.rest)) <= Elems(Domains(f))
  {
    DistinctConcat([f.domain] + Domains(f.kids), Domains(f.rest));
    DistinctConcat([f.domain], Domains(f.kids));
    assert f.domain in Elems([f.domain]);
  }

  /** Conversely, an expansion within the limits is walked completely. */
  lemma {:induction false} TreeWalked(dns: Dns, record: string, visited: set<string>, queries: seq<string>,
                                      depth: nat, f: Forest)
    requires IsExpansion(dns, Nested(record), f) && Height(f) <= Levels(depth)
    requires NoDup(Domains(f)) && Elems(Domains(f)) !! visited
    requires Direct(record) + Lookups(f) <= LOOKUP_LIMIT
    ensures Expand(dns, record, visited, queries, depth)
         == Walk(Direct(record) + Lookups(f), false, visited + Elems(Domains(f)), queries + Domains(f))
    decreases f, 1
  {
    TargetsCounted(Terms(record));
    if depth < MAX_DEPTH {
      ForestWalked(dns, Nested(record), depth, Walk(Direct(record), false, visited, queries), f);
    } else {
      assert f == Nil;
    }
  }

  lemma {:induction false} ForestWalked(dns: Dns, ns: seq<string>, depth: nat, acc: Walk, f: Forest)
    requires depth < MAX_DEPTH
    requires IsExpansion(dns, ns, f) && Height(f) <= Levels(depth)
    requires NoDup(Domains(f)) && Elems(Domains(f)) !! acc.visited
    requires acc.total + Lookups(f) <= LOOKUP_LIMIT
    ensures Children(dns, ns, depth, acc)
         == Walk(acc.total + Lookups(f), acc.incomplete, acc.visited + Elems(Domains(f)), acc.queries + Domains(f))
    decreases f, 0
  {
    if f.Node? {
      NodeDistinct(f);
      NodeDomains(f, acc.queries, acc.visited);
      var asked := Asked(acc, f.domain);
      TreeWalked(dns, f.record, asked.visited, asked.queries, depth + 1, f.kids);
      var next := Walk(acc.total + Direct(f.record) + Lookups(f.kids), acc.incomplete,
                       asked.visited + Elems(Domains(f.kids)), asked.queries + Domains(f.kids));
      VisitResolved(dns, ns[0], depth, acc, f.domain, f.record);
      assert Visit(dns, ns[0], depth, acc).0 == next;
      ForestWalked(dns, ns[1..], depth, next, f.rest);
    }
  }

  lemma DistinctConcat(a: seq<string>, b: seq<string>)
    requires NoDup(a + b)
    ensures NoDup(a) && NoDup(b) && Elems(a) !! Elems(b)
    ensures Elems(a + b) == Elems(a) + Elems(b)
  {
    var c := a + b;
    forall i, j | 0 <= i < j < |a| ensures a[i] != a[j] {
      assert c[i] == a[i] && c[j] == a[j];
    }
    forall i, j | 0 <= i < j < |b| ensures b[i] != b[j] {
      assert c[|a| + i] == b[i] && c[|a| + j] == b[j];
    }
    forall i, j | 0 <= i < |a| && 0 <= j < |b| ensures a[i] != b[j] {
      assert c[i] == a[i] && c[|a| + j] == b[j];
    }
  }

  /** The check passes a record: the walk is complete and counts at most ten lookups. */
  predicate Passes(dns: Dns, record: string, root: string) {
    var w := Expand(dns, record, {root}, [], 0);
    w.total <= LOOKUP_LIMIT && !w.incomplete
  }

  /** What the verdict means: some expansion tree of the record has at most ten terms that the check counts, is at most
      five deep, and names no domain twice nor the root again. */
  ghost predicate WithinLimits(dns: Dns, record: string, root: string, f: Forest) {
    && IsExpansion(dns, Nested(record), f)
    && Direct(record) + Lookups(f) <= LOOKUP_LIMIT
    && Height(f) <= MAX_DEPTH
    && NoDup([root] + Domains(f))
  }

  /** The verdict is exact, in both directions. */
  lemma PassIffWithinLimits(dns: Dns, record: string, root: string)
    ensures Passes(dns, record, root) <==> exists f :: WithinLimits(dns, record, root, f)
  {
    if Passes(dns, record, root) {
      var f := PassedTree(dns, record, root);
    }
    if f :| WithinLimits(dns, record, root, f) {
      WithinLimitsWalked(dns, record, root, f);
    }
  }

  lemma PassedTree(dns: Dns, record: string, root: string) returns (f: Forest)
    requires Passes(dns, record, root)
    ensures WithinLimits(dns, record, root, f)
  {
    f := WalkedTree(dns, record, {root}, [], 0);
    CheckCost(dns, record, root);
    assert [] + Domains(f) == Domains(f);
  }

  /** Within the limits the reported count is the size of the unbounded expansion, and the queries are its domains. */
  lemma WithinLimitsWalked(dns: Dns, record: string, root: string, f: Forest)
    requires WithinLimits(dns, record, root, f)
    ensures Expand(dns, record, {root}, [], 0)
         == Walk(Direct(record) + Lookups(f), false, {root} + Elems(Domains(f)), Domains(f))
  {
    DistinctConcat([root], Domains(f));
    assert root in Elems([root]);
    TreeWalked(dns, record, {root}, [], 0, f);
    assert [] + Domains(f) == Domains(f);
  }

  /** At most five deep, and no domain twice nor the root again: what the check asks for besides the count. */
  ghost predicate WellShaped(root: string, f: Forest) {
    Height(f) <= MAX_DEPTH && NoDup([root] + Domains(f))
  }

  /** Where every name of the tree resolves, the check asks for more than its count: exactly the trees that are too deep
      or that repeat a domain are flagged although they count at most ten. */
  lemma PassIffShaped(dns: Dns, record: string, root: string, f: Forest)
    requires IsExpansion(dns, Nested(record), f)
    ensures Passes(dns, record, root) <==> Direct(record) + Lookups(f) <= LOOKUP_LIMIT && WellShaped(root, f)
  {
    PassIffWithinLimits(dns, record, root);
    if g :| WithinLimits(dns, record, root, g) {
      ExpansionUnique(dns, Nested(record), f, g);
    }
    if Direct(record) + Lookups(f) <= LOOKUP_LIMIT && WellShaped(root, f) {
      assert WithinLimits(dns, record, root, f);
    }
  }
}
