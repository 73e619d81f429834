/** The greedy selection of addresses under a blended bounce-rate target. */
module Budget {
  import opened Sorting
  import opened Arithmetic

  datatype Candidate = Candidate(email: string, score: real)

  function ByScore(): Candidate -> real {
    (c: Candidate) => c.score
  }

  function Total(scores: seq<real>): real {
    if scores == [] then 0.0 else Total(scores[..|scores| - 1]) + scores[|scores| - 1]
  }

  function Scores(candidates: seq<Candidate>): (r: seq<real>)
    ensures |r| == |candidates|
  {
    seq(|candidates|, i requires 0 <= i < |candidates| => candidates[i].score)
  }

  /** A batch with this total over this many addresses stays within the target; so does the empty batch. */
  ghost predicate Within(total: real, count: nat, target: real) {
    total <= Times(count, target)
  }

  datatype Selection = Selection(included: seq<Candidate>, excluded: seq<Candidate>, total: real, count: nat)

  /** One turn of the loop. */
  function Consider(sel: Selection, c: Candidate, target: real): Selection {
    if (sel.total + c.score) / (sel.count + 1) as real <= target
    then Selection(sel.included + [c], sel.excluded, sel.total + c.score, sel.count + 1)
    else sel.(excluded := sel.excluded + [c])
  }

  function Greedy(ordered: seq<Candidate>, target: real, start: Selection): Selection {
    if ordered == [] then start
    else Consider(Greedy(ordered[..|ordered| - 1], target, start), ordered[|ordered| - 1], target)
  }

  function Committed(committed: seq<real>): Selection {
    Selection([], [], Total(committed), |committed|)
  }

  function Selected(candidates: seq<Candidate>, target: real, committed: seq<real>): Selection {
    Greedy(SortBy(candidates, ByScore()), target, Committed(committed))
  }

  /** The result, and the blended mean of committed and included scores before it is rounded for display. */
  method SelectWithinBudget(candidates: seq<Candidate>, target: real, committed: seq<real>)
    returns (included: seq<Candidate>, excluded: seq<Candidate>, projected: real)
    ensures var sel := Selected(candidates, target, committed);
            && included == sel.included && excluded == sel.excluded
            && projected == if sel.count == 0 then 0.0 else sel.total / sel.count as real
  {
    var total, count;
    included, excluded, total, count := TakeInOrder(SortBy(candidates, ByScore()), target, Committed(committed));
    projected := if count == 0 then 0.0 else total / count as real;
  }

  /** The loop over the candidates in ascending order. */
  method TakeInOrder(ordered: seq<Candidate>, target: real, start: Selection)
    returns (included: seq<Candidate>, excluded: seq<Candidate>, total: real, count: nat)
    ensures Selection(included, excluded, total, count) == Greedy(ordered, target, start)
  {
    included, excluded, total, count := start.included, start.excluded, start.total, start.count;
    for i := 0 to |ordered|
      invariant Selection(included, excluded, total, count) == Greedy(ordered[..i], target, start)
    {
      assert ordered[..i + 1][..i] == ordered[..i];
      var projectedTotal := total + ordered[i].score;
      var projectedCount := count + 1;
      if projectedTotal / projectedCount as real <= target {
        total, count := projectedTotal, projectedCount;
        included := included + [ordered[i]];
      } else {
        excluded := excluded + [ordered[i]];
      }
    }
    assert ordered[..|ordered|] == ordered;
  }

  // ---------------------------------------------------------------- what the greedy run computes

  ghost predicate Ascending(s: seq<Candidate>) {
    forall i, j | 0 <= i < j < |s| :: s[i].score <= s[j].score
  }

  lemma SortedAscending(candidates: seq<Candidate>)
    ensures Ascending(SortBy(candidates, ByScore()))
    ensures multiset(SortBy(candidates, ByScore())) == multiset(candidates)
  {
    SortByProperties(candidates, ByScore());
    var s := SortBy(candidates, ByScore());
    forall i, j | 0 <= i < j < |s| ensures s[i].score <= s[j].score {
      assert ByScore()(s[i]) <= ByScore()(s[j]);
    }
  }

  lemma QuotientWithin(total: real, count: nat, target: real)
    requires count > 0
    ensures total / count as real <= target <==> Within(total, count, target)
  {
    var k := count as real;
    var q := total / k;
    assert q * k == total;
    TimesIsProduct(count, target);
    assert (q - target) * k == q * k - target * k;
    if q < target {
      Positive(target - q, k);
    } else if target < q {
      Positive(q - target, k);
    }
  }

  lemma TotalAppend(a: seq<real>, x: real)
    ensures Total(a + [x]) == Total(a) + x
  {
    assert (a + [x])[..|a|] == a;
  }

  /** What holds of the run after the candidates `seen`: a prefix is included and the rest is excluded, the
      running totals add up, and every excluded candidate would break the target. */
  ghost predicate Summary(sel: Selection, seen: seq<Candidate>, target: real, start: Selection) {
    && sel.included + sel.excluded == seen
    && sel.total == start.total + Total(Scores(sel.included))
    && sel.count == start.count + |sel.included|
    && forall c <- sel.excluded :: !Within(sel.total + c.score, sel.count + 1, target)
  }

  lemma IncludeKeepsSummary(sel: Selection, seen: seq<Candidate>, c: Candidate, target: real, start: Selection)
    requires Summary(sel, seen, target, start) && sel.excluded == []
    ensures Summary(Selection(sel.included + [c], [], sel.total + c.score, sel.count + 1), seen + [c], target, start)
  {
    assert Scores(sel.included + [c]) == Scores(sel.included) + [c.score];
    TotalAppend(Scores(sel.included), c.score);
    assert seen == sel.included;
  }

  lemma ExcludeKeepsSummary(sel: Selection, seen: seq<Candidate>, c: Candidate, target: real, start: Selection)
    requires Summary(sel, seen, target, start) && !Within(sel.total + c.score, sel.count + 1, target)
    ensures Summary(sel.(excluded := sel.excluded + [c]), seen + [c], target, start)
  {
    assert sel.included + (sel.excluded + [c]) == seen + [c];
    forall x | x in sel.excluded + [c] ensures x in sel.excluded || x == c {
    }
  }

  lemma ConsiderKeepsSummary(sel: Selection, seen: seq<Candidate>, c: Candidate, target: real, start: Selection)
    requires Summary(sel, seen, target, start) && Ascending(seen + [c])
    ensures Summary(Consider(sel, c, target), seen + [c], target, start)
  {
    QuotientWithin(sel.total + c.score, sel.count + 1, target);
    if sel.excluded != [] {
      // `c` is no better than one that has failed already.
      var failed := sel.excluded[0];
      assert failed in sel.excluded && failed == seen[|sel.included|];
      assert (seen + [c])[|sel.included|] == failed && (seen + [c])[|seen|] == c;
      ExcludeKeepsSummary(sel, seen, c, target, start);
    } else if Within(sel.total + c.score, sel.count + 1, target) {
      IncludeKeepsSummary(sel, seen, c, target, start);
    } else {
      ExcludeKeepsSummary(sel, seen, c, target, start);
    }
  }

  /** The run includes a prefix of the ascending order and excludes the rest: once one candidate fails, every
      later one fails. */
  lemma {:induction false} GreedyPrefix(ordered: seq<Candidate>, target: real, start: Selection)
    requires Ascending(ordered)
    requires start.included == [] && start.excluded == []
    ensures Summary(Greedy(ordered, target, start), ordered, target, start)
  {
    if ordered == [] {
      assert Scores([]) == [];
    } else {
      var seen, last := ordered[..|ordered| - 1], ordered[|ordered| - 1];
      assert ordered == seen + [last];
      GreedyPrefix(seen, target, start);
      ConsiderKeepsSummary(Greedy(seen, target, start), seen, last, target, start);
    }
  }

  /** Feasible throughout: a run that starts within the target, or that included anything, ends within it. */
  lemma {:induction false} GreedyWithin(ordered: seq<Candidate>, target: real, start: Selection)
    requires start.included == []
    ensures var sel := Greedy(ordered, target, start);
            Within(start.total, start.count, target) || sel.included != [] ==> Within(sel.total, sel.count, target)
    ensures var sel := Greedy(ordered, target, start);
            if sel.included == [] then sel.total == start.total && sel.count == start.count
            else exists c :: c in ordered && Within(start.total + c.score, start.count + 1, target)
  {
    if ordered != [] {
      var seen, last := ordered[..|ordered| - 1], ordered[|ordered| - 1];
      var before := Greedy(seen, target, start);
      GreedyWithin(seen, target, start);
      QuotientWithin(before.total + last.score, before.count + 1, target);
      assert last in ordered && forall c <- seen :: c in ordered;
    }
  }

  // ---------------------------------------------------------------- optimality

  /** A choice of candidates, each used at most as often as it was offered. */
  ghost predicate ChosenFrom(chosen: seq<Candidate>, candidates: seq<Candidate>) {
    multiset(chosen) <= multiset(candidates)
  }

  lemma {:induction false} TotalRemove(s: seq<Candidate>, i: nat)
    requires i < |s|
    ensures Total(Scores(s)) == Total(Scores(s[..i] + s[i + 1..])) + s[i].score
  {
    var n := |s| - 1;
    var without := s[..i] + s[i + 1..];
    assert Scores(s)[..n] == Scores(s[..n]);
    if i < n {
      TotalRemove(s[..n], i);
      assert without == (s[..n][..i] + s[..n][i + 1..]) + [s[n]];
      assert Scores(without) == Scores(s[..n][..i] + s[..n][i + 1..]) + [s[n].score];
      TotalAppend(Scores(s[..n][..i] + s[..n][i + 1..]), s[n].score);
    } else {
      assert without == s[..n];
    }
  }

  /** No choice of `k` candidates totals less than the first `k` of the ascending order. */
  lemma {:induction false} PrefixIsCheapest(ordered: seq<Candidate>, chosen: seq<Candidate>)
    requires Ascending(ordered) && ChosenFrom(chosen, ordered)
    ensures |chosen| <= |ordered|
    ensures Total(Scores(ordered[..|chosen|])) <= Total(Scores(chosen))
  {
    ChosenLength(ordered, chosen);
    if ordered == [] {
      assert chosen == [];
    } else if ordered[|ordered| - 1] in chosen {
      var n := |ordered| - 1;
      var i :| 0 <= i < |chosen| && chosen[i] == ordered[n];
      var fewer := chosen[..i] + chosen[i + 1..];
      ChosenFewer(ordered, chosen, i);
      PrefixIsCheapest(ordered[..n], fewer);
      TotalRemove(chosen, i);
      PrefixGrows(ordered, |fewer|);
      assert ordered[..n][..|fewer|] == ordered[..|fewer|];
    } else {
      ChosenWithout(ordered, chosen);
      PrefixIsCheapest(ordered[..|ordered| - 1], chosen);
      assert ordered[..|ordered| - 1][..|chosen|] == ordered[..|chosen|];
    }
  }

  lemma PrefixGrows(ordered: seq<Candidate>, k: nat)
    requires Ascending(ordered) && k < |ordered|
    ensures Total(Scores(ordered[..k + 1])) <= Total(Scores(ordered[..k])) + ordered[|ordered| - 1].score
  {
    PrefixTotal(ordered, k);
  }

  lemma ChosenFewer(ordered: seq<Candidate>, chosen: seq<Candidate>, i: nat)
    requires ordered != [] && i < |chosen| && chosen[i] == ordered[|ordered| - 1] && ChosenFrom(chosen, ordered)
    ensures ChosenFrom(chosen[..i] + chosen[i + 1..], ordered[..|ordered| - 1])
  {
    var n := |ordered| - 1;
    var fewer := chosen[..i] + chosen[i + 1..];
    assert ordered == ordered[..n] + [ordered[n]];
    assert chosen == chosen[..i] + [ordered[n]] + chosen[i + 1..];
    RemoveCommon(multiset(fewer), multiset(ordered[..n]), ordered[n]);
  }

  lemma RemoveCommon(a: multiset<Candidate>, b: multiset<Candidate>, c: Candidate)
    requires a + multiset{c} <= b + multiset{c}
    ensures a <= b
  {
    forall x ensures a[x] <= b[x] {
      assert (a + multiset{c})[x] <= (b + multiset{c})[x];
    }
  }

  lemma ChosenLength(ordered: seq<Candidate>, chosen: seq<Candidate>)
    requires ChosenFrom(chosen, ordered)
    ensures |chosen| <= |ordered|
  {
    assert |multiset(ordered)| == |multiset(chosen)| + |multiset(ordered) - multiset(chosen)|;
  }

  lemma ChosenWithout(ordered: seq<Candidate>, chosen: seq<Candidate>)
    requires ordered != [] && ordered[|ordered| - 1] !in chosen && ChosenFrom(chosen, ordered)
    ensures ChosenFrom(chosen, ordered[..|ordered| - 1])
  {
    var n := |ordered| - 1;
    assert ordered == ordered[..n] + [ordered[n]];
    assert multiset(ordered) == multiset(ordered[..n]) + multiset{ordered[n]};
  }

  /** Adding these candidates to the committed batch stays within the target. */
  ghost predicate Fits(chosen: seq<Candidate>, target: real, start: Selection) {
    Within(start.total + Total(Scores(chosen)), start.count + |chosen|, target)
  }

  /** No choice of more candidates fits. */
  ghost predicate NothingLarger(size: nat, candidates: seq<Candidate>, target: real, start: Selection) {
    forall chosen: seq<Candidate> | ChosenFrom(chosen, candidates) && |chosen| > size :: !Fits(chosen, target, start)
  }

  /** A start that is not over the target, or that the safest candidate brings back under it. */
  ghost predicate HasHeadroom(candidates: seq<Candidate>, target: real, start: Selection) {
    || Within(start.total, start.count, target)
    || exists c :: c in candidates && Within(start.total + c.score, start.count + 1, target)
  }

  /** Not even the safest candidates together bring the batch within the target, however many are taken. */
  ghost predicate NoPrefixFits(ordered: seq<Candidate>, target: real, start: Selection) {
    forall k | 0 <= k <= |ordered| :: !Fits(ordered[..k], target, start)
  }

  /** The selection fits, and is the largest that does, exactly when the committed batch is empty or within the target
      already, or one candidate alone can bring it there. Otherwise nothing is selected. */
  lemma OptimalIff(candidates: seq<Candidate>, target: real, committed: seq<real>)
    ensures var start, included := Committed(committed), Selected(candidates, target, committed).included;
            && (HasHeadroom(candidates, target, start) <==>
                  Fits(included, target, start) && NothingLarger(|included|, candidates, target, start))
            && (!HasHeadroom(candidates, target, start) ==> included == [])
  {
    var ordered, start := SortBy(candidates, ByScore()), Committed(committed);
    SortedAscending(candidates);
    SameMembers(ordered, candidates);
    OrderedOptimalIff(ordered, target, start);
    SameChoices(ordered, candidates, target, start);
  }

  /** Nothing larger that fits is missed exactly when there is headroom, or nothing fits at all. */
  lemma LargestIff(candidates: seq<Candidate>, target: real, committed: seq<real>)
    ensures var start := Committed(committed);
            NothingLarger(|Selected(candidates, target, committed).included|, candidates, target, start) <==>
              HasHeadroom(candidates, target, start) || NoPrefixFits(SortBy(candidates, ByScore()), target, start)
  {
    var ordered, start := SortBy(candidates, ByScore()), Committed(committed);
    SortedAscending(candidates);
    SameMembers(ordered, candidates);
    OrderedOptimalIff(ordered, target, start);
    if !Fits([], target, start) {
      NothingFitsIff(ordered, target, start);
    }
    assert !HasHeadroom(ordered, target, start) ==> !Fits([], target, start);
    SameChoices(ordered, candidates, target, start);
  }

  /** Choices and headroom do not depend on the order of the candidates. */
  lemma SameChoices(ordered: seq<Candidate>, candidates: seq<Candidate>, target: real, start: Selection)
    requires multiset(ordered) == multiset(candidates) && forall c :: c in candidates <==> c in ordered
    ensures HasHeadroom(ordered, target, start) <==> HasHeadroom(candidates, target, start)
    ensures forall size: nat ::
              NothingLarger(size, ordered, target, start) <==> NothingLarger(size, candidates, target, start)
  {
    assert forall chosen: seq<Candidate> :: ChosenFrom(chosen, ordered) <==> ChosenFrom(chosen, candidates);
  }

  lemma OrderedOptimalIff(ordered: seq<Candidate>, target: real, start: Selection)
    requires Ascending(ordered) && start.included == [] && start.excluded == []
    ensures var included := Greedy(ordered, target, start).included;
            && (HasHeadroom(ordered, target, start) ==>
                  Fits(included, target, start) && NothingLarger(|included|, ordered, target, start))
            && (!HasHeadroom(ordered, target, start) ==> included == [] && !Fits([], target, start))
  {
    var sel := Greedy(ordered, target, start);
    GreedyPrefix(ordered, target, start);
    GreedyWithin(ordered, target, start);
    assert Scores([]) == [];
    if HasHeadroom(ordered, target, start) {
      HeadroomWithin(ordered, target, start);
      HeadroomOptimal(sel, ordered, target, start);
    }
  }

  lemma HeadroomOptimal(sel: Selection, ordered: seq<Candidate>, target: real, start: Selection)
    requires Ascending(ordered) && Summary(sel, ordered, target, start) && Within(sel.total, sel.count, target)
    ensures Fits(sel.included, target, start) && NothingLarger(|sel.included|, ordered, target, start)
  {
    forall chosen: seq<Candidate> | ChosenFrom(chosen, ordered) && |chosen| > |sel.included|
      ensures !Fits(chosen, target, start)
    {
      NoLargerChoice(sel, ordered, chosen, target, start);
    }
  }

  /** If the empty choice does not fit, no choice does just when no prefix of the ascending order does. */
  lemma NothingFitsIff(ordered: seq<Candidate>, target: real, start: Selection)
    requires Ascending(ordered) && !Fits([], target, start)
    ensures NothingLarger(0, ordered, target, start) <==> NoPrefixFits(ordered, target, start)
  {
    if NoPrefixFits(ordered, target, start) {
      NoChoiceFits(ordered, target, start);
    }
    if NothingLarger(0, ordered, target, start) {
      PrefixesChosen(ordered, target, start);
    }
  }

  lemma NoChoiceFits(ordered: seq<Candidate>, target: real, start: Selection)
    requires Ascending(ordered) && NoPrefixFits(ordered, target, start)
    ensures NothingLarger(0, ordered, target, start)
  {
    forall chosen: seq<Candidate> | ChosenFrom(chosen, ordered)
      ensures !Fits(chosen, target, start)
    {
      NotEvenCheapest(ordered, chosen, target, start);
    }
  }

  lemma NotEvenCheapest(ordered: seq<Candidate>, chosen: seq<Candidate>, target: real, start: Selection)
    requires Ascending(ordered) && NoPrefixFits(ordered, target, start) && ChosenFrom(chosen, ordered)
    ensures !Fits(chosen, target, start)
  {
    PrefixIsCheapest(ordered, chosen);
    assert !Fits(ordered[..|chosen|], target, start);
  }

  lemma PrefixesChosen(ordered: seq<Candidate>, target: real, start: Selection)
    requires !Fits([], target, start) && NothingLarger(0, ordered, target, start)
    ensures NoPrefixFits(ordered, target, start)
  {
    forall k | 0 <= k <= |ordered|
      ensures !Fits(ordered[..k], target, start)
    {
      PrefixChosen(ordered, k);
      if k == 0 {
        assert ordered[..k] == [];
      }
    }
  }

  lemma PrefixChosen(ordered: seq<Candidate>, k: nat)
    requires k <= |ordered|
    ensures ChosenFrom(ordered[..k], ordered)
  {
    assert ordered == ordered[..k] + ordered[k..];
  }

  /** Two candidates that together would bring the batch within the target, neither of which does alone: nothing is
      selected. */
  lemma PairMissed(email: string, other: string)
    ensures var candidates := [Candidate(email, 0.0), Candidate(other, 0.0)];
            && Selected(candidates, 0.4, [1.0]).included == []
            && Fits(candidates, 0.4, Committed([1.0]))
            && !NothingLarger(0, candidates, 0.4, Committed([1.0]))
  {
    var candidates, start := [Candidate(email, 0.0), Candidate(other, 0.0)], Committed([1.0]);
    assert Total([1.0]) == 1.0 by {
      assert [1.0][..0] == [];
    }
    assert Times(1, 0.4) == 0.4 && Times(2, 0.4) == 0.8 && Times(3, 0.4) == 1.2;
    assert Scores(candidates) == [0.0, 0.0] && [0.0, 0.0][..1] == [0.0] && [0.0][..0] == [];
    assert Total(Scores(candidates)) == 0.0;
    assert ChosenFrom(candidates, candidates);
    OptimalIff(candidates, 0.4, [1.0]);
  }

  lemma SameMembers(ordered: seq<Candidate>, candidates: seq<Candidate>)
    requires multiset(ordered) == multiset(candidates)
    ensures forall c :: c in candidates <==> c in ordered
  {
    forall c ensures c in candidates <==> c in ordered {
      assert c in multiset(candidates) <==> c in multiset(ordered);
    }
  }

  /** With headroom the run ends within the target. */
  lemma HeadroomWithin(ordered: seq<Candidate>, target: real, start: Selection)
    requires Ascending(ordered) && start.included == [] && start.excluded == []
    requires HasHeadroom(ordered, target, start)
    ensures var sel := Greedy(ordered, target, start); Within(sel.total, sel.count, target)
  {
    GreedyWithin(ordered, target, start);
    GreedyPrefix(ordered, target, start);
    if Greedy(ordered, target, start).included == [] {
      NothingFits(Greedy(ordered, target, start), ordered, target, start);
    }
  }

  lemma NothingFits(sel: Selection, ordered: seq<Candidate>, target: real, start: Selection)
    requires Summary(sel, ordered, target, start) && sel.included == []
    ensures forall c <- ordered :: !Within(start.total + c.score, start.count + 1, target)
  {
    assert sel.excluded == ordered;
    assert Scores([]) == [];
  }

  lemma FirstOver(sel: Selection, ordered: seq<Candidate>, target: real, start: Selection)
    requires Summary(sel, ordered, target, start) && Within(sel.total, sel.count, target)
    requires |sel.included| < |ordered|
    ensures !Fits(ordered[..|sel.included| + 1], target, start)
  {
    FailedScore(sel, ordered, target, start);
    PrefixTotal(ordered, |sel.included|);
    assert ordered[..|sel.included|] == sel.included;
  }

  lemma NextOver(ordered: seq<Candidate>, target: real, start: Selection, k: nat)
    requires k < |ordered| && !Fits(ordered[..k], target, start) && ordered[k].score > target
    ensures !Fits(ordered[..k + 1], target, start)
  {
    PrefixTotal(ordered, k);
    OverStays(start.total + Total(Scores(ordered[..k])), start.count + k, ordered[k].score, target);
  }

  /** Past the first failure every longer prefix is over the target. */
  lemma {:induction false} PrefixOver(sel: Selection, ordered: seq<Candidate>, target: real, start: Selection, k: nat)
    requires Ascending(ordered) && Summary(sel, ordered, target, start) && Within(sel.total, sel.count, target)
    requires |sel.included| < k <= |ordered|
    ensures !Fits(ordered[..k], target, start)
    decreases k
  {
    if k == |sel.included| + 1 {
      FirstOver(sel, ordered, target, start);
    } else {
      PrefixOver(sel, ordered, target, start, k - 1);
      FailedScore(sel, ordered, target, start);
      assert ordered[|sel.included|].score <= ordered[k - 1].score;
      NextOver(ordered, target, start, k - 1);
    }
  }

  lemma OverStays(total: real, count: nat, score: real, target: real)
    requires !Within(total, count, target) && score > target
    ensures !Within(total + score, count + 1, target)
  {
  }

  lemma PrefixTotal(ordered: seq<Candidate>, k: nat)
    requires k < |ordered|
    ensures Total(Scores(ordered[..k + 1])) == Total(Scores(ordered[..k])) + ordered[k].score
  {
    assert ordered[..k + 1] == ordered[..k] + [ordered[k]];
    assert Scores(ordered[..k] + [ordered[k]]) == Scores(ordered[..k]) + [ordered[k].score];
    TotalAppend(Scores(ordered[..k]), ordered[k].score);
  }

  /** The first excluded candidate scores above the target, and breaks it. */
  lemma FailedScore(sel: Selection, ordered: seq<Candidate>, target: real, start: Selection)
    requires Summary(sel, ordered, target, start) && Within(sel.total, sel.count, target)
    requires |sel.included| < |ordered|
    ensures var failed := ordered[|sel.included|];
            failed.score > target && !Within(sel.total + failed.score, sel.count + 1, target)
  {
    var failed := sel.excluded[0];
    assert failed in sel.excluded && failed == ordered[|sel.included|];
  }

  lemma NoLargerChoice(sel: Selection, ordered: seq<Candidate>, chosen: seq<Candidate>, target: real, start: Selection)
    requires Ascending(ordered) && Summary(sel, ordered, target, start) && Within(sel.total, sel.count, target)
    requires ChosenFrom(chosen, ordered) && |sel.included| < |chosen|
    ensures !Within(start.total + Total(Scores(chosen)), start.count + |chosen|, target)
  {
    PrefixIsCheapest(ordered, chosen);
    PrefixOver(sel, ordered, target, start, |chosen|);
  }

  // ---------------------------------------------------------------- what the selection consists of

  /** The total is the sum. */
  lemma {:induction false} TotalIsSum(a: seq<real>, b: seq<real>, x: real)
    ensures Total([]) == 0.0 && Total([x]) == x && Total(a + b) == Total(a) + Total(b)
    decreases |b|
  {
    assert [x][..0] == [];
    if b == [] {
      assert a + b == a;
    } else {
      var n := |b| - 1;
      TotalIsSum(a, b[..n], x);
      assert (a + b)[..|a| + n] == a + b[..n];
    }
  }

  /** The mean of so many scores with this total. */
  predicate MeanWithin(total: real, count: nat, target: real) {
    count > 0 && total / count as real <= target
  }

  /** No single excluded candidate could be added. */
  ghost predicate OneMoreExceeds(sel: Selection, target: real) {
    forall c <- sel.excluded :: !MeanWithin(sel.total + c.score, sel.count + 1, target)
  }

  lemma MeanWithinIff(total: real, count: nat, target: real)
    requires count > 0
    ensures MeanWithin(total, count, target) <==> Within(total, count, target)
  {
    QuotientWithin(total, count, target);
  }

  /** Included and excluded candidates are all the candidates in ascending order; the total and the count are those of
      the committed and the included together; what was included keeps the mean within the target, and one more of the
      excluded would not. */
  lemma SelectionMeans(candidates: seq<Candidate>, target: real, committed: seq<real>)
    ensures var sel := Selected(candidates, target, committed);
            && Ascending(sel.included + sel.excluded)
            && multiset(sel.included + sel.excluded) == multiset(candidates)
            && sel.total == Total(committed) + Total(Scores(sel.included))
            && sel.count == |committed| + |sel.included|
            && (sel.included != [] ==> MeanWithin(sel.total, sel.count, target))
            && OneMoreExceeds(sel, target)
  {
    SortedAscending(candidates);
    GreedyMeans(SortBy(candidates, ByScore()), target, Committed(committed));
  }

  lemma GreedyMeans(ordered: seq<Candidate>, target: real, start: Selection)
    requires Ascending(ordered) && start.included == [] && start.excluded == []
    ensures var sel := Greedy(ordered, target, start);
            && sel.included + sel.excluded == ordered
            && sel.total == start.total + Total(Scores(sel.included)) && sel.count == start.count + |sel.included|
            && (sel.included != [] ==> MeanWithin(sel.total, sel.count, target))
            && OneMoreExceeds(sel, target)
  {
    GreedyPrefix(ordered, target, start);
    GreedyWithin(ordered, target, start);
    SummaryMeans(Greedy(ordered, target, start), ordered, target, start);
  }

  lemma SummaryMeans(sel: Selection, ordered: seq<Candidate>, target: real, start: Selection)
    requires Summary(sel, ordered, target, start) && Ascending(ordered)
    requires sel.included != [] ==> Within(sel.total, sel.count, target)
    ensures sel.included != [] ==> MeanWithin(sel.total, sel.count, target)
    ensures OneMoreExceeds(sel, target)
  {
    if sel.included != [] {
      MeanWithinIff(sel.total, sel.count, target);
    }
    forall c <- sel.excluded
      ensures !MeanWithin(sel.total + c.score, sel.count + 1, target)
    {
      MeanWithinIff(sel.total + c.score, sel.count + 1, target);
    }
  }
}
