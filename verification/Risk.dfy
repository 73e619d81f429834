/** The two-level pooled hard-bounce estimate for accept-all recipients, in exact reals. */
module Risk {
  import opened Wrappers
  import opened Arithmetic

  datatype Counts = Counts(delivered: nat, hardBounce: nat, softBounce: nat) {
    /** Outcomes that speak to permanent failure. */
    function Decisive(): nat {
      delivered + hardBounce
    }
  }

  datatype Probe = Probe(controlTotal: nat, controlRejected: nat,
                         targetLatency: Option<real>, controlLatency: Option<real>, reputationSignal: bool)

  /** The functions of the model whose exact values are not modelled. */
  datatype Link = Link(logit: real -> real, sigmoid: real -> real, round3: real -> real)

  datatype Level = Low | Medium | High

  datatype Action = Send | Caution | Hold

  datatype Source = ProviderPrior | ProviderHistory | DomainHistory | SharedDomainHistory

  datatype Evidence = Evidence(prior: real, provider: Counts, domain: Counts, shared: bool,
                               localDelta: real, signalDelta: real, probe: Option<Probe>)

  datatype Assessment = Assessment(score: real, level: Level, action: Action, source: Source,
                                   sampleSize: nat, baseRate: real, providerRate: real)

  const PROVIDER_STRENGTH: real := 25.0
  const DOMAIN_STRENGTH: real := 15.0

  /** The beta-binomial posterior mean. */
  function PooledRate(counts: Counts, prior: real, strength: real): real
    requires strength > 0.0
  {
    (counts.hardBounce as real + prior * strength) / (counts.Decisive() as real + strength)
  }

  function LevelFor(score: real): (Level, Action) {
    if score <= 0.04 then (Low, Send) else if score >= 0.10 then (High, Hold) else (Medium, Caution)
  }

  function SourceOf(e: Evidence): Source {
    if e.domain.Decisive() > 0 then (if e.shared then SharedDomainHistory else DomainHistory)
    else if e.provider.Decisive() > 0 then ProviderHistory
    else ProviderPrior
  }

  function ProviderRate(e: Evidence): real {
    PooledRate(e.provider, e.prior, PROVIDER_STRENGTH)
  }

  function BaseRate(e: Evidence): real {
    PooledRate(e.domain, ProviderRate(e), DOMAIN_STRENGTH)
  }

  function SelectiveShift(p: Probe): real {
    if p.controlRejected > 0 then
      -1.2 - 0.6 * (p.controlRejected as real / (if p.controlTotal > 1 then p.controlTotal else 1) as real)
    else 0.0
  }

  function TimingShift(p: Probe): real {
    if p.targetLatency.Some? && p.controlLatency.Some? && p.controlLatency.value > 0.0 then
      (if p.targetLatency.value / p.controlLatency.value >= 1.8 then -1.8 else 1.2)
    else 0.0
  }

  /** The probe's evidence on the log-odds: two shifts, and the pull half-way back to the prior. */
  function Probed(link: Link, e: Evidence, logOdds: real): real {
    match e.probe
    case None => logOdds
    case Some(p) =>
      var shifted := logOdds + SelectiveShift(p) + TimingShift(p);
      if p.reputationSignal then shifted + (link.logit(e.prior) - shifted) * 0.5 else shifted
  }

  function LogOdds(link: Link, e: Evidence): real {
    Probed(link, e, link.logit(BaseRate(e)))
      + (if e.localDelta != 0.0 then link.round3(e.localDelta * 0.5) else 0.0)
      + e.signalDelta
  }

  function Assess(link: Link, e: Evidence): Assessment {
    var score := link.sigmoid(LogOdds(link, e));
    Assessment(score, LevelFor(score).0, LevelFor(score).1, SourceOf(e),
               if e.domain.Decisive() > 0 then e.domain.Decisive() else e.provider.Decisive(),
               BaseRate(e), ProviderRate(e))
  }

  method ComputeRisk(link: Link, e: Evidence) returns (a: Assessment)
    ensures a == Assess(link, e)
  {
    var providerRate := PooledRate(e.provider, e.prior, PROVIDER_STRENGTH);
    var baseRate := PooledRate(e.domain, providerRate, DOMAIN_STRENGTH);
    var source := ProviderPrior;
    if e.domain.Decisive() > 0 {
      source := if e.shared then SharedDomainHistory else DomainHistory;
    } else if e.provider.Decisive() > 0 {
      source := ProviderHistory;
    }
    var logOdds := link.logit(baseRate);
    if e.probe.Some? {
      var p := e.probe.value;
      if p.controlRejected > 0 {
        var rejectedShare := p.controlRejected as real / (if p.controlTotal > 1 then p.controlTotal else 1) as real;
        logOdds := logOdds + (-1.2 - 0.6 * rejectedShare);
      }
      if p.targetLatency.Some? && p.controlLatency.Some? && p.controlLatency.value > 0.0 {
        var ratio := p.targetLatency.value / p.controlLatency.value;
        logOdds := logOdds + (if ratio >= 1.8 then -1.8 else 1.2);
      }
      if p.reputationSignal {
        logOdds := logOdds + (link.logit(e.prior) - logOdds) * 0.5;
      }
    }
    if e.localDelta != 0.0 {
      logOdds := logOdds + link.round3(e.localDelta * 0.5);
    }
    if e.signalDelta != 0.0 {
      logOdds := logOdds + e.signalDelta;
    }
    var score := link.sigmoid(logOdds);
    var (level, action) := LevelFor(score);
    var sampleSize := if e.domain.Decisive() > 0 then e.domain.Decisive() else e.provider.Decisive();
    a := Assessment(score, level, action, source, sampleSize, baseRate, providerRate);
  }

  // ---------------------------------------------------------------- monotonicity

  /** Bounces out of bounces and deliveries: more of the first and less of the second raises the share. */
  lemma ShareMonotone(a: real, b: real, a': real, b': real)
    requires 0.0 <= a <= a' && 0.0 <= b' <= b && a + b > 0.0 && a' + b' > 0.0
    ensures a / (a + b) <= a' / (a' + b')
  {
    var n, n' := a + b, a' + b';
    var x, x' := a / n, a' / n';
    assert x * n == a && x' * n' == a';
    CrossProducts(a, b, a', b');
    assert a * n' <= a' * n;
    assert (x * n) * n' == x * (n * n') && (x' * n') * n == x' * (n * n');
    Positive(n, n');
    OrderByScaling(x, x', n * n');
  }

  lemma CrossProducts(a: real, b: real, a': real, b': real)
    requires 0.0 <= a <= a' && 0.0 <= b' <= b
    ensures a * (a' + b') <= a' * (a + b)
  {
    assert a * b' <= a * b && a * b <= a' * b;
    assert a * (a' + b') == a * a' + a * b' && a' * (a + b) == a' * a + a' * b;
  }

  lemma OrderByScaling(x: real, y: real, n: real)
    requires n > 0.0 && x * n <= y * n
    ensures x <= y
  {
    if y < x {
      Positive(x - y, n);
    }
  }

  lemma RateByScaling(x: real, n: real, product: real)
    requires n > 0.0 && x * n == product && 0.0 <= product <= n
    ensures IsRate(x)
  {
    if x < 0.0 {
      Positive(-x, n);
    }
    if 1.0 < x {
      Positive(x - 1.0, n);
    }
  }

  lemma Scaled(x: real, y: real, n: real)
    requires x <= y && 0.0 <= n
    ensures x * n <= y * n
  {
  }

  lemma Distribute(x: real, n: real, k: real)
    ensures x * (n + k) == x * n + x * k
  {
  }

  predicate IsRate(x: real) {
    0.0 <= x <= 1.0
  }

  /** The delivered weight of a pooled rate; with the bounced weight it makes up the denominator. */
  lemma PooledWeights(counts: Counts, prior: real, strength: real)
    requires strength > 0.0 && IsRate(prior)
    ensures 0.0 <= prior * strength <= strength
    ensures counts.Decisive() as real + strength
         == (counts.hardBounce as real + prior * strength) + (counts.delivered as real + (strength - prior * strength))
  {
    Scaled(0.0, prior, strength);
    Scaled(prior, 1.0, strength);
  }

  /** No more deliveries and no fewer hard bounces. */
  predicate NoBetter(worse: Counts, than: Counts) {
    worse.hardBounce >= than.hardBounce && worse.delivered <= than.delivered
  }

  lemma PooledMonotone(counts: Counts, worse: Counts, prior: real, worsePrior: real, strength: real)
    requires NoBetter(worse, counts) && IsRate(prior) && IsRate(worsePrior) && prior <= worsePrior && strength > 0.0
    ensures PooledRate(counts, prior, strength) <= PooledRate(worse, worsePrior, strength)
  {
    PooledWeights(counts, prior, strength);
    PooledWeights(worse, worsePrior, strength);
    Scaled(prior, worsePrior, strength);
    SharesOrdered(counts, worse, prior * strength, worsePrior * strength, strength);
  }

  lemma SharesOrdered(counts: Counts, worse: Counts, weight: real, worseWeight: real, strength: real)
    requires NoBetter(worse, counts) && 0.0 <= weight <= worseWeight <= strength && strength > 0.0
    ensures (counts.hardBounce as real + weight) / (counts.Decisive() as real + strength)
         <= (worse.hardBounce as real + worseWeight) / (worse.Decisive() as real + strength)
  {
    var a, b := counts.hardBounce as real + weight, counts.delivered as real + (strength - weight);
    var a', b' := worse.hardBounce as real + worseWeight, worse.delivered as real + (strength - worseWeight);
    assert a + b == counts.Decisive() as real + strength && a' + b' == worse.Decisive() as real + strength;
    ShareMonotone(a, b, a', b');
  }

  /** A pooled rate lies between its prior and the observed rate, and is the prior without observations. */
  lemma PooledBetween(counts: Counts, prior: real, strength: real)
    requires strength > 0.0 && IsRate(prior)
    ensures IsRate(PooledRate(counts, prior, strength))
    ensures counts.Decisive() == 0 ==> PooledRate(counts, prior, strength) == prior
    ensures counts.Decisive() > 0 ==>
              var observed := counts.hardBounce as real / counts.Decisive() as real;
              var pooled := PooledRate(counts, prior, strength);
              prior <= pooled <= observed || observed <= pooled <= prior
  {
    PooledWeights(counts, prior, strength);
    PooledMean(counts.hardBounce as real, prior, prior * strength, counts.Decisive() as real, strength,
               PooledRate(counts, prior, strength));
  }

  lemma PooledMean(sum: real, prior: real, weight: real, n: real, strength: real, pooled: real)
    requires strength > 0.0 && 0.0 <= sum <= n && weight == prior * strength && 0.0 <= weight <= strength
    requires pooled == (sum + weight) / (n + strength)
    ensures IsRate(pooled)
    ensures n == 0.0 ==> pooled == prior
    ensures n > 0.0 ==> prior <= pooled <= sum / n || sum / n <= pooled <= prior
  {
    WeightedMean(sum, prior, weight, n, strength);
  }

  /** The mean of `n` observations summing to `sum` and of `strength` pseudo-observations summing to `weight`. */
  lemma WeightedMean(sum: real, prior: real, weight: real, n: real, strength: real)
    requires strength > 0.0 && 0.0 <= sum <= n && weight == prior * strength && 0.0 <= weight <= strength
    ensures var pooled := (sum + weight) / (n + strength);
            && IsRate(pooled)
            && (n == 0.0 ==> pooled == prior)
            && (n > 0.0 ==> prior <= pooled <= sum / n || sum / n <= pooled <= prior)
  {
    var total := n + strength;
    var pooled := (sum + weight) / total;
    assert pooled * total == sum + weight;
    RateByScaling(pooled, total, sum + weight);
    if n == 0.0 {
      OrderByScaling(pooled, prior, total);
      OrderByScaling(prior, pooled, total);
    } else {
      var observed := sum / n;
      assert observed * n == sum;
      Mixture(pooled, observed, prior, n, strength);
    }
  }

  lemma Mixture(pooled: real, observed: real, prior: real, n: real, k: real)
    requires n > 0.0 && k > 0.0 && pooled * (n + k) == observed * n + prior * k
    ensures prior <= pooled <= observed || observed <= pooled <= prior
  {
    var total := n + k;
    Distribute(prior, n, k);
    Distribute(observed, n, k);
    assert prior * total == prior * n + prior * k && observed * total == observed * n + observed * k;
    assert pooled * total == observed * n + prior * k;
    if prior <= observed {
      Scaled(prior, observed, n);
      Scaled(prior, observed, k);
      assert prior * total <= pooled * total <= observed * total;
      OrderByScaling(prior, pooled, total);
      OrderByScaling(pooled, observed, total);
    } else {
      Scaled(observed, prior, n);
      Scaled(observed, prior, k);
      assert observed * total <= pooled * total <= prior * total;
      OrderByScaling(observed, pooled, total);
      OrderByScaling(pooled, prior, total);
    }
  }

  /** All that is assumed of the link functions: neither ever decreases. */
  ghost predicate Increasing(link: Link) {
    && (forall x: real, y: real | x <= y :: link.logit(x) <= link.logit(y))
    && (forall x: real, y: real | x <= y :: link.sigmoid(x) <= link.sigmoid(y))
  }

  function Severity(action: Action): nat {
    match action
    case Send => 0
    case Caution => 1
    case Hold => 2
  }

  /** The same evidence except for the delivery history, which is no better at either level. */
  ghost predicate WorseHistory(e: Evidence, worse: Evidence) {
    && worse == e.(provider := worse.provider, domain := worse.domain, shared := worse.shared)
    && NoBetter(worse.provider, e.provider)
    && NoBetter(worse.domain, e.domain)
  }

  /** Hard bounces at the domain or at its provider never lower the score or soften the action, and
      deliveries never raise them, even through the reputation pull. */
  lemma RiskMonotone(link: Link, e: Evidence, worse: Evidence)
    requires Increasing(link) && IsRate(e.prior) && WorseHistory(e, worse)
    ensures Assess(link, e).score <= Assess(link, worse).score
    ensures Severity(Assess(link, e).action) <= Severity(Assess(link, worse).action)
  {
    PooledMonotone(e.provider, worse.provider, e.prior, e.prior, PROVIDER_STRENGTH);
    PooledBetween(e.provider, e.prior, PROVIDER_STRENGTH);
    PooledBetween(worse.provider, e.prior, PROVIDER_STRENGTH);
    PooledMonotone(e.domain, worse.domain, ProviderRate(e), ProviderRate(worse), DOMAIN_STRENGTH);
    assert link.logit(BaseRate(e)) <= link.logit(BaseRate(worse));
    ProbedMonotone(link, e, link.logit(BaseRate(e)), link.logit(BaseRate(worse)));
    assert Probed(link, worse, link.logit(BaseRate(worse))) == Probed(link, e, link.logit(BaseRate(worse)));
    assert LogOdds(link, e) <= LogOdds(link, worse);
  }

  lemma ProbedMonotone(link: Link, e: Evidence, x: real, y: real)
    requires x <= y
    ensures Probed(link, e, x) <= Probed(link, e, y)
  {
  }

  // ---------------------------------------------------------------- what the parts of the estimate mean

  /** A pooled rate is the bounces observed and expected over the outcomes observed and expected. */
  lemma PooledExact(delivered: nat, hardBounce: nat, softBounce: nat, prior: real, strength: real)
    requires strength > 0.0
    ensures PooledRate(Counts(delivered, hardBounce, softBounce), prior, strength)
            * (delivered as real + hardBounce as real + strength)
         == hardBounce as real + prior * strength
  {
    var sum, n := hardBounce as real + prior * strength, delivered as real + hardBounce as real + strength;
    QuotientTimes(sum, n);
  }

  lemma QuotientTimes(x: real, n: real)
    requires n != 0.0
    ensures x / n * n == x
  {
  }

  /** Up to four percent is sent, from ten percent on is held, and what lies between goes with caution. */
  lemma BandsMean(link: Link, e: Evidence)
    ensures var a := Assess(link, e);
            && (a.action == Send <==> a.score <= 0.04) && (a.level == Low <==> a.action == Send)
            && (a.action == Hold <==> a.score >= 0.10) && (a.level == High <==> a.action == Hold)
            && (a.action == Caution <==> 0.04 < a.score < 0.10) && (a.level == Medium <==> a.action == Caution)
  {
  }

  /** The estimate names the closest history that has decisive outcomes, and counts those alone. */
  lemma SourceMeans(link: Link, e: Evidence)
    ensures var a := Assess(link, e);
            var domain := e.domain.delivered + e.domain.hardBounce;
            var provider := e.provider.delivered + e.provider.hardBounce;
            && (a.source in {DomainHistory, SharedDomainHistory} <==> domain > 0)
            && (a.source == SharedDomainHistory ==> e.shared) && (a.source == DomainHistory ==> !e.shared)
            && (a.source == ProviderHistory <==> domain == 0 && provider > 0)
            && (a.source == ProviderPrior <==> domain == 0 && provider == 0)
            && a.sampleSize == (if domain > 0 then domain else provider)
  {
  }

  lemma SoftBouncesIgnored(link: Link, e: Evidence, provider: nat, domain: nat)
    ensures var other := e.(provider := e.provider.(softBounce := provider), domain := e.domain.(softBounce := domain));
            Assess(link, other) == Assess(link, e)
  {
  }

  /** Rejected controls lower the log-odds by 1.2, and by up to 0.6 more in proportion to their share. */
  lemma SelectiveMeans(p: Probe)
    ensures p.controlRejected == 0 ==> SelectiveShift(p) == 0.0
    ensures 0 < p.controlRejected && 0 < p.controlTotal ==>
              SelectiveShift(p) * p.controlTotal as real
              == -1.2 * p.controlTotal as real - 0.6 * p.controlRejected as real
    ensures 0 < p.controlRejected && p.controlTotal == 0 ==>
              SelectiveShift(p) == -1.2 - 0.6 * p.controlRejected as real
  {
    if 0 < p.controlRejected && 0 < p.controlTotal {
      QuotientTimes(p.controlRejected as real, p.controlTotal as real);
    }
  }

  /** A target that takes 1.8 times as long as the controls was looked up, which counts for it; otherwise the quick
      answer counts against it. Without a measured control neither does. */
  lemma TimingMeans(p: Probe)
    ensures p.targetLatency.Some? && p.controlLatency.Some? && p.controlLatency.value > 0.0 ==>
              TimingShift(p) == if p.targetLatency.value >= 1.8 * p.controlLatency.value then -1.8 else 1.2
    ensures p.targetLatency.None? || p.controlLatency.None? || p.controlLatency.value <= 0.0 ==> TimingShift(p) == 0.0
  {
    if p.targetLatency.Some? && p.controlLatency.Some? && p.controlLatency.value > 0.0 {
      RatioAtLeast(p.targetLatency.value, p.controlLatency.value, 1.8);
    }
  }

  lemma Difference(a: real, b: real, n: real)
    ensures (a - b) * n == a * n - b * n
  {
  }

  lemma RatioAtLeast(x: real, n: real, ratio: real)
    requires n > 0.0
    ensures x / n >= ratio <==> x >= ratio * n
  {
    var q := x / n;
    QuotientTimes(x, n);
    assert q * n == x;
    if q >= ratio {
      Scaled(ratio, q, n);
    } else {
      Positive(ratio - q, n);
      Difference(ratio, q, n);
    }
  }

  /** Where the destination reacted to the probing host, the log-odds end half-way between what the probe says and the
      prior; otherwise they are what the probe says. */
  lemma ReputationMeans(link: Link, e: Evidence, logOdds: real)
    requires e.probe.Some?
    ensures var said := logOdds + SelectiveShift(e.probe.value) + TimingShift(e.probe.value);
            if e.probe.value.reputationSignal then Probed(link, e, logOdds) + Probed(link, e, logOdds)
                                                   == said + link.logit(e.prior)
            else Probed(link, e, logOdds) == said
  {
  }

  /** The score is the sigmoid of the base rate's log-odds after the probe, plus half the local part's signal, rounded,
      and the domain's. */
  lemma ScoreMeans(link: Link, e: Evidence)
    ensures var a := Assess(link, e);
            && a.providerRate == PooledRate(e.provider, e.prior, 25.0)
            && a.baseRate == PooledRate(e.domain, a.providerRate, 15.0)
            && (e.probe.None? && e.localDelta == 0.0 ==>
                  a.score == link.sigmoid(link.logit(a.baseRate) + e.signalDelta))
            && (e.localDelta != 0.0 ==>
                  a.score == link.sigmoid(Probed(link, e, link.logit(a.baseRate)) + link.round3(e.localDelta / 2.0)
                                          + e.signalDelta))
            && (e.localDelta == 0.0 ==>
                  a.score == link.sigmoid(Probed(link, e, link.logit(a.baseRate)) + e.signalDelta))
  {
    assert e.localDelta * 0.5 == e.localDelta / 2.0;
  }
}
