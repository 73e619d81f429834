/** Which TXT values count as SPF records, and that no other TXT value of any domain matters to the check. */
module SpfPublished {
  import opened Wrappers
  import opened Text
  import opened Sequences
  import opened SpfExpansion

  /** The first six characters, in any case, are the version. */
  predicate Versioned(value: string) {
    |value| >= 6 && Lower(value[..6]) == "v=spf1"
  }

  lemma VersionedIff(value: string)
    ensures IsSpf(value) <==> Versioned(value)
  {
    if |value| >= 6 {
      assert Lower(value)[..6] == Lower(value[..6]);
    }
  }

  lemma {:induction false} KeptSpf(values: seq<string>)
    ensures Kept(KeepSpf(values), values, Versioned)
  {
    if values == [] {
      KeptNothing<string>(Versioned);
    } else {
      var n := |values| - 1;
      KeptSpf(values[..n]);
      KeptNext(KeepSpf(values[..n]), values[..n], Versioned, values[n]);
      VersionedIff(values[n]);
      assert values == values[..n] + [values[n]];
    }
  }

  /** The SPF records of a domain are its versioned TXT values, in order and as often as they are published. */
  lemma PublishedSpf(dns: Dns, domain: string)
    ensures Kept(SpfRecords(dns, domain), dns.txt(domain), Versioned)
  {
    KeptSpf(dns.txt(domain));
  }

  // ---------------------------------------------------------------- other TXT values

  /** `more` is `values` with values put in anywhere that are not versioned. */
  predicate AddsOthers(values: seq<string>, more: seq<string>)
    decreases |more|
  {
    if more == [] then values == []
    else
      var n := |more| - 1;
      || (values != [] && values[|values| - 1] == more[n] && AddsOthers(values[..|values| - 1], more[..n]))
      || (!Versioned(more[n]) && AddsOthers(values, more[..n]))
  }

  lemma {:induction false} OthersDropped(values: seq<string>, more: seq<string>)
    requires AddsOthers(values, more)
    ensures KeepSpf(values) == KeepSpf(more)
    decreases |more|
  {
    if more != [] {
      var n := |more| - 1;
      VersionedIff(more[n]);
      if values != [] && values[|values| - 1] == more[n] && AddsOthers(values[..|values| - 1], more[..n]) {
        OthersDropped(values[..|values| - 1], more[..n]);
      } else {
        OthersDropped(values, more[..n]);
      }
    }
  }

  /** The same names, and at every domain the same TXT values but for others put in. */
  ghost predicate OnlyOthersAdded(dns: Dns, more: Dns) {
    && (forall raw :: dns.safe(raw) == more.safe(raw))
    && (forall domain :: AddsOthers(dns.txt(domain), more.txt(domain)))
  }

  lemma SameRecords(dns: Dns, more: Dns)
    requires OnlyOthersAdded(dns, more)
    ensures forall domain :: SpfRecords(dns, domain) == SpfRecords(more, domain)
  {
    forall domain
      ensures SpfRecords(dns, domain) == SpfRecords(more, domain)
    {
      OthersDropped(dns.txt(domain), more.txt(domain));
    }
  }

  ghost predicate SameSpf(dns: Dns, more: Dns) {
    && (forall raw :: dns.safe(raw) == more.safe(raw))
    && (forall domain :: SpfRecords(dns, domain) == SpfRecords(more, domain))
  }

  lemma {:induction false} SameExpand(dns: Dns, more: Dns, record: string, visited: set<string>, queries: seq<string>,
                                      depth: nat)
    requires SameSpf(dns, more)
    ensures Expand(dns, record, visited, queries, depth) == Expand(more, record, visited, queries, depth)
    decreases Levels(depth), 2, 0
  {
    if depth < MAX_DEPTH {
      SameChildren(dns, more, Slice(Nested(record)), depth, Walk(Direct(record), false, visited, queries));
    }
  }

  lemma {:induction false} SameChildren(dns: Dns, more: Dns, ns: seq<string>, depth: nat, acc: Walk)
    requires SameSpf(dns, more) && depth < MAX_DEPTH
    ensures Children(dns, ns, depth, acc) == Children(more, ns, depth, acc)
    decreases Levels(depth), 1, |ns|
  {
    if ns != [] {
      SameVisit(dns, more, ns[0], depth, acc);
      var (next, stop) := Visit(dns, ns[0], depth, acc);
      if !stop {
        SameChildren(dns, more, ns[1..], depth, next);
      }
    }
  }

  lemma {:induction false} SameVisit(dns: Dns, more: Dns, raw: string, depth: nat, acc: Walk)
    requires SameSpf(dns, more) && depth < MAX_DEPTH
    ensures Visit(dns, raw, depth, acc) == Visit(more, raw, depth, acc)
    decreases Levels(depth), 0, 0
  {
    if !Skipped(dns, raw, acc.visited) && |SpfRecords(dns, dns.safe(raw).value)| == 1 {
      var asked := Asked(acc, dns.safe(raw).value);
      SameExpand(dns, more, SpfRecords(dns, dns.safe(raw).value)[0], asked.visited, asked.queries, depth + 1);
    }
  }

  /** Other TXT values, published at any domain, change neither the count nor the flag, the queries or the verdict. */
  lemma OtherTxtIgnored(dns: Dns, more: Dns, record: string, root: string)
    requires OnlyOthersAdded(dns, more)
    ensures Expand(dns, record, {root}, [], 0) == Expand(more, record, {root}, [], 0)
    ensures Passes(dns, record, root) <==> Passes(more, record, root)
  {
    SameRecords(dns, more);
    SameExpand(dns, more, record, {root}, [], 0);
  }

  // ---------------------------------------------------------------- domains that do not resolve

  lemma {:induction false} KeptCount(kept: seq<string>, values: seq<string>, i: nat, j: nat)
    requires Kept(kept, values, Versioned) && i < j < |values| && Versioned(values[i]) && Versioned(values[j])
    ensures |kept| >= 2
  {
    var p: seq<nat> :| KeptAt(kept, values, Versioned, p);
    assert i in p && j in p;
    var a :| 0 <= a < |p| && p[a] == i;
    var b :| 0 <= b < |p| && p[b] == j;
    assert a != b;
  }

  /** A domain that publishes a second SPF record is asked for and not followed, and the result is incomplete. */
  lemma SecondSpfAmbiguous(dns: Dns, raw: string, depth: nat, acc: Walk, i: nat, j: nat)
    requires depth < MAX_DEPTH && !Skipped(dns, raw, acc.visited)
    requires var values := dns.txt(dns.safe(raw).value);
             i < j < |values| && Versioned(values[i]) && Versioned(values[j])
    ensures Visit(dns, raw, depth, acc) == (Asked(acc, dns.safe(raw).value).(incomplete := true), false)
  {
    var domain := dns.safe(raw).value;
    PublishedSpf(dns, domain);
    KeptCount(SpfRecords(dns, domain), dns.txt(domain), i, j);
    VisitAmbiguous(dns, raw, depth, acc);
  }

  lemma {:induction false} ExpansionResolves(dns: Dns, ns: seq<string>, f: Forest, k: nat)
    requires IsExpansion(dns, ns, f) && k < |ns|
    ensures dns.safe(ns[k]).Some? && |SpfRecords(dns, dns.safe(ns[k]).value)| == 1
    decreases f
  {
    if k > 0 {
      ExpansionResolves(dns, ns[1..], f.rest, k - 1);
    }
  }

  /** A record passes only if each domain it names publishes exactly one SPF record, whatever else it publishes. */
  lemma PassesOnlyWithOneSpf(dns: Dns, record: string, root: string, k: nat)
    requires Passes(dns, record, root) && k < |Nested(record)|
    ensures dns.safe(Nested(record)[k]).Some?
    ensures var values := dns.txt(dns.safe(Nested(record)[k]).value);
            exists i: nat :: i < |values| && Versioned(values[i]) &&
                             forall j: nat | j < |values| && Versioned(values[j]) :: j == i
  {
    PassIffWithinLimits(dns, record, root);
    var f :| WithinLimits(dns, record, root, f);
    ExpansionResolves(dns, Nested(record), f, k);
    var domain := dns.safe(Nested(record)[k]).value;
    PublishedSpf(dns, domain);
    OnlyOneKept(SpfRecords(dns, domain), dns.txt(domain));
  }

  lemma OnlyOneKept(kept: seq<string>, values: seq<string>)
    requires Kept(kept, values, Versioned) && |kept| == 1
    ensures exists i: nat :: i < |values| && Versioned(values[i]) &&
                             forall j: nat | j < |values| && Versioned(values[j]) :: j == i
  {
    var p: seq<nat> :| KeptAt(kept, values, Versioned, p);
    assert p[0] in p;
    assert forall j <- p :: j == p[0];
  }
}
