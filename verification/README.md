# Verification of the mail platform's decision logic

A Dafny model of the parts of the backend whose correctness depends on loops, arithmetic or interleavings, with
proofs that they keep their promises on every input and every run.

- **SPF lookups** (`SpfExpansion`, `SpfPublished`, `SpfStandard`, `SpfStrictness`): the bounded recursive walk over
  `include` and `redirect`, compared with the unbounded expansion tree of a record, and what it counts, compared with
  what section 4.6.4 of RFC 7208 counts. The DNS is a function from names to TXT values; host-name normalisation is a
  function parameter.
- **SPF records** (`SpfRecord`, `SpfGrammar`, `SpfSemantics`, `SpfGenerated`, `SpfSimple`): validator, drift
  comparison and generator; an exact grammar of the accepted terms; and a first-match semantics over abstract senders
  in which the comparison is sound and exact.
- **TXT records** (`TxtRecords`, `TextMeaning`): zone-file fragments and DKIM normalisation.
- **Staged sending** (`Sampling`, `SampleRanks`, `CanaryCreation`, `Canary`, `CanaryDecision`, `CanaryMeaning`):
  sample choice, the batch object with its operations, the verdict, and what each operation does to every recipient.
  The outcome of a send is the set of addresses accepted.
- **Whole runs of staged sending** (`CanarySessions`, `CanaryRuns`, `CanaryAttempts`, `CanaryOverlap`,
  `CanarySampleSize`, `CanaryReached`, `CanaryHistory`): any number of database sessions of scheduler and endpoints
  that overlap. Loading rows, each single send, and the commit of what the session changed are separate steps; a
  session keeps the rows it read. `CanaryOverlap` proves that the object's operations are the sessions that nothing
  interrupts.
- **Risk arithmetic** (`Budget`, `Calibration`, `Risk`, over exact reals; `Sorting`): greedy selection under a
  blended target, the reliability diagram, and two-level pooling with abstract increasing link functions.
- **Concurrent claims** (`ScheduleClaims`, `RefreshRotation`): compare-and-swap protocols of any number of workers
  over one row, with reads and writes as separate steps.
- **Event bus** (`EventBus`): subscribers' bounded queues with a ghost history.
- **Key delegation** (`KeyDelegation`, `KeyRequests`, `KeyRuns`): what API keys may do, the guard on what they may
  grant, what a request asks for and gets, and runs of overlapping requests that create, edit and revoke keys. A
  request goes by the caller and the key as it loaded them, and its commit writes what it changed over the row stored
  by then.
- **Revision 020** (`ConversationMerge`, `CampaignAccounts`): merging duplicate conversations, and the round trip
  of account lists through positioned rows.

`Text`, `Sequences`, `Arithmetic` and `Wrappers` hold string operations, shared small facts and result types.
Identifiers that are only compared are numbers.

Where the code promises less than one might expect, the exact condition is proved (for repeated scoring, a
bound), with a concrete run or input:

- The SPF check misses the limit of section 4.6.4 of RFC 7208 both ways. It does not count `a/24` or `mx/24`, it
  counts unknown modifiers such as `a=x`, and it flags deep trees and repeated domains: `SpfStandard.TermCost`,
  `DisagreesIff`, `SlashedPasses`, `MisnamedFlagged`, `SpfStrictness.RepeatedIncludeFlagged`.
- Budget selection is largest only with headroom or where nothing fits, although its documentation states it without
  that condition: `Budget.OptimalIff`, `LargestIff`, `PairMissed`.
- Sending sessions take no lock, so one that loads its rows while another is sending repeats its sends:
  `CanaryRuns.AtMostOneAttempt`, `CanaryAttempts.TriedOnceIff`, `CanaryOverlap.DecidedTwice`, `CancelTooLate`,
  `CanaryReached.TriedTwiceByOverlap`.
- A session cut off between its sends and its commit leaves them to be repeated: `CanaryOverlap.CutOffRepeatsSend`,
  `CanaryReached.TriedTwiceByCutOff`.
- Scoring again never takes anybody out of the sample: `CanarySampleSize.SampleGrowth`, `RescoringGrowsSample`,
  `CanaryReached.SampleOfTwo`.
- Logouts and password changes write the version they loaded plus one, which can undo rotations:
  `RefreshRotation.NeverReturnsIff`, `FallReturnsHeld`, `BumpHarmlessIff`, `LateLogoutReplays`.
- A hard bounce can be overwritten by a session that had loaded its row as pending: `CanaryHistory.BounceStaysIff`,
  `CanaryReached.BounceOverwritten`.
- A schedule edit that stalls past a claim can put the claimed run back: `ScheduleClaims.SaveHarmlessIff`,
  `LateSaveBreaks`, `LateEditRepeatsClaim`.
- The delegation guard sees the key as it was loaded, so two edits that overlap can leave a key that may do what no
  key could: `KeyRuns.CommitWithinIff`, `NoEscalationIff`, `OverlappingEditsEscape`.
- The delegation guard rests on no stored allow-list being empty: `KeyDelegation.GuardExact`, `EmptyListEscapes`.
- Bins hold all observations only for scores between 0 and 1: `Calibration.ReportSound`, `OutsideScoreLost`.

## Model

| member | source | states |
|---|---|---|
| SpfExpansion.SpfLookupTerms | backend/app/deliverability/network.py:152-164 | counts every term that costs a lookup and lists the nested domains in order; there are never more nested domains than counted terms |
| SpfExpansion.TargetsCounted | backend/app/deliverability/network.py:152-164 | each nested domain of a record was also counted as a lookup |
| SpfExpansion.Walker.Resolve | backend/app/deliverability/network.py:188-191 | one query per call, keeping the TXT values that start like SPF |
| SpfExpansion.Walker.SpfRecursiveLookups | backend/app/deliverability/network.py:167-200 | the loop with its shared visited set, depth cut, ten-child slice and early break returns exactly the specified walk |
| SpfExpansion.Walker.VisitChild | backend/app/deliverability/network.py:180-199 | one nested domain: unusable or repeated names and ambiguous records only mark the result incomplete; otherwise its count is added and the loop stops above ten |
| SpfExpansion.QueryCost | backend/app/deliverability/network.py:167-200 | for every DNS content, cyclic includes too: no name asked twice, no more queries than the returned total, ten at most for each querying level |
| SpfExpansion.ChildrenCost | backend/app/deliverability/network.py:180-200 | the same bounds for the loop from any point on, although the skipping paths pass by the break |
| SpfExpansion.VisitCost | backend/app/deliverability/network.py:180-199 | one nested domain costs its own query and those below it, and the loop goes on only if it added nothing or the total is still at most ten |
| SpfExpansion.CheckCost | backend/app/deliverability/network.py:370-377 | a check makes at most fifty distinct queries, none for the record's own domain, and no more than the total it reports |
| SpfExpansion.ExpansionUnique | backend/app/deliverability/network.py:167-200 | the DNS content determines the unbounded expansion tree |
| SpfExpansion.WalkGrows | backend/app/deliverability/network.py:180-200 | along the loop totals never fall and an incomplete walk stays incomplete |
| SpfExpansion.WalkedTree | backend/app/deliverability/network.py:167-200 | a complete walk with at most ten lookups expanded the whole tree, and its total is the unbounded count |
| SpfExpansion.WalkedChildren | backend/app/deliverability/network.py:180-200 | the same for the loop over the nested domains, built up child by child |
| SpfExpansion.VisitWalked | backend/app/deliverability/network.py:180-199 | a nested domain that leaves the walk complete and within the limit was expanded down to its last domain |
| SpfExpansion.TreeWalked | backend/app/deliverability/network.py:167-200 | conversely a tree within the limits is walked completely, its domains queried in order |
| SpfExpansion.ForestWalked | backend/app/deliverability/network.py:180-200 | the same for the loop over the nested domains |
| SpfExpansion.PassIffWithinLimits | backend/app/deliverability/network.py:370-377 | the check passes a record just when some unbounded expansion has at most ten terms that the check counts, is at most five deep and repeats no domain |
| SpfExpansion.WithinLimitsWalked | backend/app/deliverability/network.py:167-200 | within the limits the reported count is the unbounded sum over the tree and the queries are its domains |
| SpfExpansion.PassIffShaped | backend/app/deliverability/network.py:370-377 | where every name resolves, the verdict is the check's own count, the depth and the absence of repeated domains |
| SpfPublished.PublishedSpf | backend/app/deliverability/network.py:188-191 | a domain's SPF records are exactly its TXT values whose first six characters are `v=spf1` in any case, in order and as often as published |
| SpfPublished.OtherTxtIgnored | backend/app/deliverability/network.py:185-199 | TXT values of any other kind, added at any domain, change neither count nor flag, queries or verdict |
| SpfPublished.SecondSpfAmbiguous | backend/app/deliverability/network.py:188-194 | a domain with two SPF records is asked for, not followed, and makes the result incomplete |
| SpfPublished.PassesOnlyWithOneSpf | backend/app/deliverability/network.py:370-377 | a record passes only if each domain it names publishes exactly one SPF record |
| SpfStandard.TermCost | backend/app/deliverability/network.py:152-164 | what the check counts of a term against section 4.6.4 of RFC 7208: exactly querying mechanisms with a slash behind the name are free, and exactly modifiers named like one, or `redirect` without `=`, are counted for nothing |
| SpfStandard.TargetsAgreeIff | backend/app/deliverability/network.py:152-164 | the check follows the domains that the standard does just when the term is not a misnamed one with a value |
| SpfStandard.ValidatorCountsByTheStandard | backend/app/domains/service.py:190-256 | on every term that the validator reads it counts by the standard, unlike the check |
| SpfStandard.ExpansionsAgree | backend/app/deliverability/network.py:167-200 | without such diverted terms the check walks the standard's expansion tree |
| SpfStandard.PassIffCounted | backend/app/deliverability/network.py:370-377 | the verdict in the standard's count: terms counted, plus misnamed ones, minus slashed ones, are at most ten, and the tree has the shape asked for |
| SpfStandard.DisagreesIff | backend/app/deliverability/network.py:370-377 | where no misnamed term names a domain, both ways in which the verdict misses the limit of RFC 7208, each with its exact condition: records over it that slashed terms let pass, and records within it that shape or misnamed terms flag |
| SpfStandard.PassIffStandard | backend/app/deliverability/network.py:370-377 | without slashed and misnamed terms the verdict is the standard's limit and the shape |
| SpfStandard.SlashedPasses | backend/app/deliverability/network.py:152-164 | any number of terms `a/24`, each of which the standard counts, passes whatever the DNS holds: the concrete record |
| SpfStandard.MisnamedFlagged | backend/app/deliverability/network.py:152-164 | eleven modifiers `a=x`, none of which the standard counts, are flagged: the concrete record |
| SpfStrictness.RepeatedIncludeFlagged | backend/app/deliverability/network.py:167-200 | a record that includes one domain twice has two lookups in all by the standard, and the check flags it: the concrete record and DNS |
| SpfRecord.ValidateSpfRecord | backend/app/domains/service.py:176-256 | the validator with its counters and seen modifiers, errors in the order it reports them |
| SpfRecord.CheckEachTerm | backend/app/domains/service.py:190-256 | the loop over the terms agrees with the recursive reading of them |
| SpfRecord.ValidIff | backend/app/domains/service.py:176-256 | a record is accepted just when it has the version, a term, only well-formed terms, no modifier twice and at most ten terms that need DNS |
| SpfRecord.CheckTermsIff | backend/app/domains/service.py:190-256 | the same from any state of the loop; when only the limit fails, the error carries the exact count |
| SpfRecord.FirstErrorReported | backend/app/domains/service.py:190-256 | an error other than the limit is the one of the first term that has one, all before it being well formed and without a repeated modifier |
| SpfGrammar.TermAccepted | backend/app/domains/service.py:195-250 | every legal term of the grammar is accepted, with at most one qualifier on mechanisms, and read as the modifier or the lookup that it is |
| SpfGrammar.TermGrammar | backend/app/domains/service.py:190-250 | the validator accepts exactly the terms of the grammar: modifiers, `all`, `a` and `mx` with host and prefix lengths up to 32 and 128, `ptr`, `include`, `exists`, and networks of their family |
| SpfRecord.SimpleSpfParts | backend/app/domains/service.py:1276-1296 | the simple form, if the record has it: canonical mechanisms as a set, and the terminal |
| SpfSimple.SimpleIff | backend/app/domains/service.py:1276-1296 | a record has the simple form just when it is the version, terms named `a` or `mx` after at most one `+` with nothing or a colon behind the name, and `-all` or `~all` |
| SpfSimple.OtherwiseTextual | backend/app/domains/service.py:1246-1272 | any other record, with `include`, `ip4` and the like, is compared as ordered text |
| SpfSimple.PlainValidIff | backend/app/domains/service.py:176-256 | such a record is valid just when its terms are well formed and at most ten |
| SpfSimple.OrderDoesNotMatter | backend/app/domains/service.py:1255-1271 | the terms of a valid one may be published in any order |
| SpfRecord.MatchesByTokens | backend/app/domains/service.py:1246-1272 | the comparison depends on the lower-cased token lists alone, not on spacing or case |
| SpfRecord.NormalizedTokens | backend/app/domains/service.py:1247-1248 | normalising a record keeps exactly its lower-cased tokens |
| SpfSemantics.EvaluateSimple | backend/app/domains/service.py:1276-1296 | the set form of a simple record gives every sender the verdict of the ordered record (section 4.6.2 of RFC 7208) |
| SpfSemantics.SimpleRecordEvaluates | backend/app/domains/service.py:1276-1296 | so does it for every record that is valid and simple as the code decides it |
| SpfSemantics.CoversIffSafe | backend/app/domains/service.py:1255-1271 | required mechanisms covered and terminals compatible just when the replacement is safe for every sender |
| SpfSemantics.MatchIffSafe | backend/app/domains/service.py:1246-1271 | two valid simple records match just when the published one admits whoever a required mechanism admits and treats nobody it does not admit less strictly than expected |
| SpfSemantics.MatchIsSafe | backend/app/domains/service.py:1246-1272 | any match is such a safe replacement, or the two records are the same token for token |
| SpfSemantics.MatchAdmitsAllIff | backend/app/domains/service.py:1259-1266 | a matching record admits everyone the expected one admits just when it also repeats the optional `a:` hosts |
| SpfSemantics.PartsAreCanonical | backend/app/domains/service.py:1276-1296 | two valid simple records have one set form just when no sender can tell them apart: order, repetition and trailing dots do not matter |
| SpfSemantics.CoversTransitiveIff | backend/app/domains/service.py:1255-1271 | covering chains from an expected record just when it names `mx`, ends in `-all` or has no `a:` host |
| SpfSemantics.MatchTransitive | backend/app/domains/service.py:1222-1273 | so matching is transitive from every such record |
| SpfGenerated.BuildSpfExpected | backend/app/domains/service.py:941-960 | the recommended record: relays as host or address mechanisms under `-all`, or the mail host under `~all` |
| SpfGenerated.MechanismReadable | backend/app/domains/service.py:941-960 | every generated mechanism is one the validator reads, and costs a lookup just when the relay is a host name |
| SpfGenerated.GeneratedRecordValid | backend/app/domains/service.py:941-960 | a generated record validates, and matches itself, just when at most nine relays are host names; the error otherwise has the exact count |
| SpfGenerated.MatchesItselfIffValid | backend/app/domains/service.py:1246-1273 | the comparison is reflexive on valid records and nowhere else |
| SpfGenerated.FallbackRecordValid | backend/app/domains/service.py:941-960 | the recommendation without relays is valid and matches itself |
| SpfGenerated.GeneratedRecordChains | backend/app/domains/service.py:1222-1273 | matching is transitive from every generated record |
| SpfSimple.ReorderedRelaysMatch | backend/app/domains/service.py:941-960 | the recommended record for up to nine host relays matches in whatever order its terms are published |
| SpfSimple.AddressRelaysTextual | backend/app/domains/service.py:941-960 | with an address relay only its own tokens in its own order match |
| SpfSimple.FallbackMatchIff | backend/app/domains/service.py:1255-1271 | without relays a valid simple record matches the recommendation just when it names `mx`, whatever its terminal and its hosts |
| SpfSimple.RecommendedAdmits | backend/app/domains/service.py:941-960 | the recommended record admits exactly the domain's mail hosts and its relays by name or address, and rejects everybody else |
| SpfSimple.FallbackAdmits | backend/app/domains/service.py:941-960 | without relays it admits the mail hosts and the server's name, and softly fails everybody else |
| TxtRecords.FragmentChunks | backend/app/domains/service.py:122-132 | the parser finds exactly the quoted chunks, whatever stands between them |
| TxtRecords.ZonefileRoundTrip | backend/app/domains/service.py:122-132 | a quote-free value cut into any chunks is read back, exactly when it has no outer white space |
| TxtRecords.DkimIdempotent | backend/app/domains/service.py:135-148 | normalising a DKIM value again changes nothing |
| TxtRecords.DkimIgnoresInsertedSpace | backend/app/domains/service.py:135-148 | white space inserted anywhere behind the first `p=` makes no difference (section 3.6.2.2 of RFC 6376) |
| TxtRecords.DkimMatchIff | backend/app/domains/service.py:1238-1239 | two values count as one DKIM record just when they agree up to the first `p=` and on the non-blank characters behind it |
| TextMeaning.CutMeans | backend/app/domains/service.py:135-148 | a DKIM value is cut at its first `p=`, if it has one |
| TextMeaning.UnclosedIgnored | backend/app/domains/service.py:122-132 | a quote that is not closed starts no chunk |
| Sampling.ChooseSample | backend/app/emails/canary.py:53-84 | the sample and the held remainder, with the size clamped and the even-spread ranks |
| Sampling.PickIndices | backend/app/emails/canary.py:71-80 | the picked set is the set of rounded ranks, the fill loop adding nothing to it |
| Sampling.FillFromTop | backend/app/emails/canary.py:76-80 | the loop adds the first ranks of the risk order until the set has the requested size, and leaves a full set alone |
| Sampling.UnclippedStep | backend/app/emails/canary.py:73-75 | neighbouring rounded ranks differ by the floor or the ceiling of the step |
| Sampling.EvenSpread | backend/app/emails/canary.py:71-75 | ranks start at the riskiest, end at the safest, and are spaced by the floor or ceiling of (n-1)/(size-1), at least one |
| Sampling.RanksCounted | backend/app/emails/canary.py:66-80 | half-even rounding collapses no two ranks, so exactly the requested number is picked |
| Sampling.SamplePartitions | backend/app/emails/canary.py:53-84 | for every batch and size, sample and remainder partition the batch and the sample has the clamped size |
| Sampling.ExtremesSampled | backend/app/emails/canary.py:53-84 | the sample holds a riskiest address, and from two on a safest one |
| SampleRanks.SortByOrder | backend/app/emails/canary.py:62-66 | the risk order is the stable one: by key, and by place where that ties |
| SampleRanks.SampleIsSpread | backend/app/emails/canary.py:53-84 | member by member: the sample is taken at ranks of the stable descending order that start at the riskiest, end at the safest, differ by the floor or the ceiling of (n-1)/(size-1) and are each the nearest integer to their slot, the even one of two; the held list is the rest in that order |
| Canary.StagedSend.ScoreAndAssignSample | backend/app/emails/canary.py:190-245 | rejected rows are skipped, the others scored, the sample marked among them; a batch with no survivor is blocked; what is not pending is untouched |
| Canary.StagedSend.ScoreLoop | backend/app/emails/canary.py:214-227 | every pending row is scored or skipped, and the survivors are returned in row order |
| Canary.StagedSend.DispatchSample | backend/app/emails/canary.py:260-299 | every due sample row is tried once and becomes sent or skipped; the batch is probing if there was one |
| Canary.StagedSend.ReleaseRemaining | backend/app/emails/canary.py:302-338 | held pending rows at or above the cutoff are blocked, all others tried once |
| Canary.StagedSend.BlockRemaining | backend/app/emails/canary.py:410-428 | every held pending row is blocked and nothing else changes |
| Canary.StagedSend.Decide | backend/app/emails/canary.py:341-407 | the verdict from the observed sample, and the release or block it leads to |
| Canary.StagedSend.ApplyBounce | backend/app/emails/canary.py:431-464 | only sent rows of that address settle, compared without case and outer space |
| Canary.StagedSend.Cancel | backend/app/emails/validation_router.py:340-361 | a finished batch is left alone and reported as a conflict; otherwise all pending rows are cancelled |
| Canary.NonePending | backend/app/emails/canary.py:198-212 | scoring a batch without pending rows changes no row |
| CanaryMeaning.ScoringMeans | backend/app/emails/canary.py:190-245 | scoring touches exactly the pending rows: each gets its score or an eighth, the dead are skipped, and of the others exactly those chosen come into the sample |
| CanaryMeaning.SurvivorsMean | backend/app/emails/canary.py:214-227 | the sample is chosen among the pending rows that are not dead, in order, by the scores they get |
| CanaryMeaning.DispatchMeans | backend/app/emails/canary.py:260-299 | the wave sends to exactly the pending sample rows; accepted ones are sent, the others skipped |
| CanaryMeaning.BounceMeans | backend/app/emails/canary.py:431-464 | exactly the sent rows of the address, in any case and with outer space, settle: a hard bounce counts as failed in the sample, a soft one leaves the trial, any other outcome counts as delivered |
| CanaryMeaning.CancelMeans | backend/app/emails/validation_router.py:340-361 | exactly what is pending is blocked |
| CanaryMeaning.CountIsSize | backend/app/emails/canary.py:363-373 | a count is the number of rows that pass the test |
| CanaryMeaning.VerdictMeans | backend/app/emails/canary.py:363-394 | the verdict as documented: nothing tried, a clean sample, a wholly failed one, or a cut at the safest failure |
| CanaryMeaning.DecisionMeans | backend/app/emails/canary.py:341-407 | recipient by recipient: everybody held and pending is released under a clean sample, blocked under a wholly failed one, and else blocked just if a failed sample row was no riskier; released ones are sent to, and nobody else is touched |
| CanaryMeaning.OutcomeMeans | backend/app/emails/canary.py:363-407 | the batch fails without a trial, is blocked if the whole sample failed, and is released otherwise |
| CanaryDecision.SafestFailureIsLeast | backend/app/emails/canary.py:387-390 | the cutoff is attained by a bounced sample row and no bounced row is safer |
| CanaryDecision.MoreBouncesCounts | backend/app/emails/canary.py:363-373 | more bounces keep the observed sample and never lower the rate |
| CanaryDecision.MoreBouncesSafest | backend/app/emails/canary.py:387-390 | more bounces never raise the cutoff |
| CanaryDecision.DecisionAntitone | backend/app/emails/canary.py:341-407 | for a fixed observed sample, more hard bounces never select anyone that fewer did not |
| CanaryDecision.DecisionSeparates | backend/app/emails/canary.py:341-407 | over the threshold everyone selected, even by rows read later than the sample, scores strictly below every bounced sample, and nobody is selected if all of the sample bounced |
| CanaryDecision.CleanSampleReleasesAll | backend/app/emails/canary.py:375-377 | within the threshold everyone held and pending is selected |
| CanaryRuns.StepKeepsInvariant | backend/app/emails/canary_scheduler.py:22-80 | every step of any session or caller keeps the invariant of stored rows and sessions under way, stale snapshots included |
| CanaryRuns.RunKeepsInvariant | backend/app/emails/canary_scheduler.py:22-80 | so it holds after every interleaving of any number of sessions from a new batch |
| CanaryRuns.StepKeepsPaid | backend/app/emails/canary.py:260-407 | every step keeps the account of each recipient: attempts made and still owed never exceed those paid for |
| CanaryRuns.AtMostOneAttempt | backend/app/emails/canary.py:190-464 | over every interleaving of loads, sends and commits each recipient gets at most one attempt, plus one for each sending session cut off before its commit and one for each that loads while another is sending; a pending row that nobody holds has had none but those |
| CanaryRuns.OneAttemptUndisturbed | backend/app/emails/canary.py:190-464 | where no sending session overlaps another and none is cut off, at most one attempt each |
| CanaryRuns.HeldUntilDecided | backend/app/emails/canary.py:302-407 | nobody held is sent to before a release was loaded |
| CanaryRuns.ProbingIsScored | backend/app/emails/canary.py:190-299 | every pending recipient of a probing batch, or of one with any sample, has a score |
| CanaryRuns.NeverPendingAgain | backend/app/emails/canary.py:190-464 | no status returns to pending, nobody leaves the sample, and no recipient is lost or renamed, whatever stale rows are committed |
| CanaryRuns.ReachableDecisionSeparates | backend/app/emails/canary.py:341-407 | in every reachable batch a session loads only recipients strictly safer than every bounced one it read |
| CanaryRuns.ReachableScoresInRange | backend/app/emails/canary.py:214-227 | all scores of every reachable batch, and all that sessions under way decide by, are probabilities if the validator's are |
| CanaryAttempts.AttemptsAreLoads | backend/app/emails/canary.py:260-407 | over any run the attempts made, still owed, and lost with a session cut off are exactly the times the recipient was loaded |
| CanaryAttempts.LoadedOnceIff | backend/app/emails/canary.py:260-407 | a recipient is loaded at most once just when it is never loaded while another session holds it or after one that held it was cut off |
| CanaryAttempts.TriedOnceIff | backend/app/emails/canary.py:260-407 | so it is tried at most once in that case, and only then once nobody owes it an attempt and none was lost |
| CanaryHistory.StatusesTellSends | backend/app/emails/canary.py:190-464 | over every interleaving a row says sent, settled or released only if a message to its recipient was accepted |
| CanaryHistory.CommitTells | backend/app/emails/canary.py:279-338 | a commit leaves accepted recipients sent or released, refused ones skipped, rejected ones blocked, and touches no other row |
| CanaryHistory.BounceStaysIff | backend/app/emails/canary.py:431-464 | a recorded hard bounce stays until exactly a session that had loaded the row as pending commits over it |
| CanaryHistory.BounceHoldsBack | backend/app/emails/canary.py:341-464 | from the step that records it on, unless such a commit comes, every verdict over the threshold selects only recipients strictly safer than the bounced one |
| CanarySessions.OpensIff | backend/app/emails/canary_scheduler.py:22-80 | sessions open exactly on a batch whose status asks for them, and on no finished one |
| CanarySessions.ScoringEnds | backend/app/emails/canary.py:198-236 | a session that finds nothing pending ends, and one whose recipients are all rejected blocks the batch |
| CanarySessions.NothingTriedFails | backend/app/emails/canary.py:363-368 | without a trial the batch fails and nothing is sent |
| CanarySessions.CancelledIff | backend/app/emails/validation_router.py:340-361 | cancelling leaves exactly the finished batches alone |
| CanarySessions.WaveMembers | backend/app/emails/canary.py:260-320 | a session loads each row its query selects once, and all of them are pending then |
| CanaryOverlap.SendAllState | backend/app/emails/canary.py:279-291 | a session tries each recipient it still owes once and touches no other session |
| CanaryOverlap.UninterruptedState | backend/app/emails/canary.py:260-338 | what a session writes if nothing comes between its load and its commit |
| CanaryOverlap.DispatchUninterrupted | backend/app/emails/canary.py:260-299 | the object's sample wave is one such session |
| CanaryOverlap.DecideUninterrupted | backend/app/emails/canary.py:341-407 | so is the object's decision with its release or block |
| CanaryOverlap.DecidedTwice | backend/app/emails/validation_router.py:319-337 | the decide endpoint and the scheduler both find the batch probing: the run that tries every selected recipient twice without a cut-off |
| CanaryOverlap.CutOffRepeatsSend | backend/app/emails/canary.py:302-338 | a release cut off before its commit is repeated by the next session: the run that tries every selected recipient twice without an overlap |
| CanaryOverlap.CancelTooLate | backend/app/emails/validation_router.py:340-361 | cancelling while a session is sending stops none of its sends, and its commit overwrites the cancelled rows |
| CanarySampleSize.MarkedCount | backend/app/emails/canary.py:229-233 | in a batch without repeated addresses each sample address marks exactly one row |
| CanarySampleSize.ScoringAdds | backend/app/emails/canary.py:190-245 | one scoring brings in at most the clamped sample size, and exactly that many if nobody was in the sample |
| CanarySampleSize.ScoringUninterrupted | backend/app/emails/canary.py:190-245 | a scoring that nothing interrupts writes what the batch object's method does |
| CanarySampleSize.SampleGrowth | backend/app/emails/canary.py:190-245 | over any run the sample holds at most the clamped size for each time scores were written |
| CanarySampleSize.RescoringGrowsSample | backend/app/emails/canary.py:190-245 | a batch of two with a sample of one, scored twice with different scores, has both in its sample: the concrete run |
| CanaryReached.SampleOfTwo | backend/app/emails/canary.py:190-245 | the run with two scorings, from one fresh batch of two |
| CanaryReached.TriedTwiceByOverlap | backend/app/emails/validation_router.py:319-337 | from the same batch: scoring, sample wave, then endpoint and scheduler decide together, and one recipient is tried twice |
| CanaryReached.TriedTwiceByCutOff | backend/app/emails/canary.py:302-338 | from the same batch: a release cut off before its commit, and one recipient is tried twice without an overlap |
| CanaryReached.BounceOverwritten | backend/app/emails/canary.py:431-464 | from the same batch: two sessions send the sample, one commits, the hard bounce is recorded, and the other commits over it |
| CanaryCreation.CreateCanary | backend/app/emails/canary.py:87-187 | the first usable spelling of each address, suppressed domains skipped and placed last; no usable address is an error |
| CanaryCreation.UniqueCovers | backend/app/emails/canary.py:105-113 | every usable input is represented |
| CanaryCreation.UniqueSource | backend/app/emails/canary.py:105-113 | every address kept is a usable input |
| CanaryCreation.UniqueDistinct | backend/app/emails/canary.py:105-113 | no two addresses kept differ only in case |
| CanaryCreation.KeepRows | backend/app/emails/canary.py:118-133 | each side of the suppression policy gets exactly its addresses, each once |
| CanaryCreation.UsableIff | backend/app/emails/canary.py:105-113 | an entry is usable if it is not blank and what it holds is valid |
| CanaryCreation.FirstSpellingsKept | backend/app/emails/canary.py:105-113 | the addresses kept are exactly the first usable spellings, stripped, in the order of the request |
| CanaryCreation.KeptInOrder | backend/app/emails/canary.py:118-173 | each side of the policy keeps its order, held and unscored, pending unless suppressed |
| CanaryCreation.SuppressedLast | backend/app/emails/canary.py:118-173 | recipients to be sent to come first, suppressed ones last |
| CanaryCreation.CreatedOncePerAddress | backend/app/emails/canary.py:87-187 | one row for each usable address in any spelling, held, unscored, and pending just when its domain is not suppressed |
| CanaryCreation.NewBatchFresh | backend/app/emails/canary.py:140-187 | a created batch is a start from which the run guarantees hold |
| CanaryCreation.AddressTriedOnce | backend/app/emails/canary.py:87-464 | from creation on every address, in any spelling, is tried at most once, plus once for each sending session cut off or overlapping; at most once in undisturbed runs |
| Budget.SelectWithinBudget | backend/app/emails/risk_model.py:374-413 | the loop computes the greedy selection and its projected mean |
| Budget.SelectionMeans | backend/app/emails/risk_model.py:374-413 | included and excluded are all candidates in ascending order, total and count are those of committed and included, the included keep the mean within the target, and no excluded one could be added |
| Budget.GreedyPrefix | backend/app/emails/risk_model.py:374-413 | the included set is a prefix of the ascending order: once one candidate fails, every later one fails |
| Budget.GreedyWithin | backend/app/emails/risk_model.py:374-413 | a run that starts within the target, or includes anything, ends within it |
| Budget.PrefixIsCheapest | backend/app/emails/risk_model.py:389-413 | no choice of k candidates totals less than the first k in ascending order |
| Budget.HeadroomWithin | backend/app/emails/risk_model.py:389-413 | with headroom the blended mean ends within the target |
| Budget.NoLargerChoice | backend/app/emails/risk_model.py:389-413 | no choice with more members than the selection meets the target |
| Budget.HeadroomOptimal | backend/app/emails/risk_model.py:374-413 | with headroom the selection is feasible and largest |
| Budget.OptimalIff | backend/app/emails/risk_model.py:374-413 | the selection fits and is the largest that does just when the committed batch is within the target or one candidate alone can bring it there; else nothing is selected |
| Budget.LargestIff | backend/app/emails/risk_model.py:374-413 | no larger choice that fits is missed just when there is that headroom or no prefix of the ascending order fits |
| Budget.NothingFitsIff | backend/app/emails/risk_model.py:389-413 | where the committed batch is over the target, some choice fits just when a prefix of the ascending order does |
| Budget.PairMissed | backend/app/emails/risk_model.py:389-413 | two candidates that together bring the batch within the target are missed: the concrete input |
| Calibration.CalibrationReport | backend/app/emails/risk_model.py:438-484 | the report computed by running sums and bin by bin, nothing for no observations |
| Calibration.CollectBins | backend/app/emails/risk_model.py:456-476 | one entry for each bin with members, in order |
| Calibration.ReportOfOne | backend/app/emails/risk_model.py:438-484 | the report of one observation is its score, whether it bounced, and the squared distance |
| Calibration.ReportsCombine | backend/app/emails/risk_model.py:438-484 | Brier score and means of two samples combine by their sizes |
| Calibration.MembersKept | backend/app/emails/risk_model.py:456-466 | a bin's members are the observations whose score belongs there |
| Calibration.BinsListed | backend/app/emails/risk_model.py:456-476 | the bins reported are exactly those with members, in order |
| Calibration.BinMeansThat | backend/app/emails/risk_model.py:466-475 | a reported bin has its members' number and means |
| Calibration.OneBin | backend/app/emails/risk_model.py:458-464 | a score lies in some bin just when it is between 0 and 1, and then in one only |
| Calibration.EqualWidthPartitions | backend/app/emails/risk_model.py:456-464 | the equal-width bins partition the scores between 0 and 1 |
| Calibration.BinsPartition | backend/app/emails/risk_model.py:456-476 | any sum over the bins is the sum over the observations between 0 and 1 |
| Calibration.CauchySchwarz | backend/app/emails/risk_model.py:466-475 | within one bin the squared mean gap is at most the mean squared error |
| Calibration.DiagramSound | backend/app/emails/risk_model.py:438-484 | for any partition of the scores: counts, recombined means and the gap bound, before dividing by the sample size |
| Calibration.ReportSound | backend/app/emails/risk_model.py:438-484 | counts sum to the sample size just when all scores are in [0,1]; then bin means recombine to the overall means; the count-weighted squared gap never exceeds the Brier score |
| Calibration.OutsideScoreLost | backend/app/emails/risk_model.py:458-464 | an observation with any score outside the unit interval is in no bin: the concrete report |
| Risk.ComputeRisk | backend/app/emails/risk_model.py:209-351 | the step-by-step log-odds give the specified assessment |
| Risk.PooledExact | backend/app/emails/risk_model.py:156-159 | a pooled rate is bounces observed and expected over outcomes observed and expected |
| Risk.ScoreMeans | backend/app/emails/risk_model.py:209-351 | which evidence the score is built from, with the strengths 25 and 15 at the two levels |
| Risk.SelectiveMeans | backend/app/emails/risk_model.py:244-257 | rejected controls lower the log-odds by 1.2 and in proportion to their share by up to 0.6 more |
| Risk.TimingMeans | backend/app/emails/risk_model.py:258-285 | a target 1.8 times slower than the controls counts for it, a quicker one against it |
| Risk.ReputationMeans | backend/app/emails/risk_model.py:286-298 | a reputation signal ends the log-odds half-way to the prior |
| Risk.BandsMean | backend/app/emails/risk_model.py:209-351 | send up to four percent, hold from ten on, caution between |
| Risk.SourceMeans | backend/app/emails/risk_model.py:230-245 | the closest history with decisive outcomes is named and counted |
| Risk.SoftBouncesIgnored | backend/app/emails/risk_model.py:209-351 | soft bounces do not matter |
| Risk.PooledMonotone | backend/app/emails/risk_model.py:156-159 | a pooled rate never falls with more bounces, fewer deliveries or a higher prior |
| Risk.PooledBetween | backend/app/emails/risk_model.py:156-159 | a pooled rate lies between its prior and the observed rate, and is the prior without observations |
| Risk.RiskMonotone | backend/app/emails/risk_model.py:209-351 | with all other evidence fixed, hard bounces never lower the score or soften the action and deliveries never raise them, at either level, even through the reputation pull |
| EventBus.EventMailbox | backend/app/events/bus.py:109-122 | an event is attributed to an address in lower case or to none; a present `mailbox` field hides `address` |
| EventBus.AttributedIff | backend/app/events/bus.py:109-122 | exactly one field decides: the sender of a sent mail, else a present `mailbox`, else `address`, and only as a string with an `@` |
| EventBus.AddressedAnyCase | backend/app/events/bus.py:52-53 | a stream sees an event just when it was opened for the event's mailbox in any spelling |
| EventBus.RelevantIsKept | backend/app/events/bus.py:82-98 | what a stream should see are exactly the messages for its mailboxes, in order |
| EventBus.OfferedMeans | backend/app/events/bus.py:86-94 | an open queue takes a message for it unless 256 are waiting, and ends only then |
| EventBus.OfferedExact | backend/app/events/bus.py:86-98 | publishing keeps each queue the exact, gap-free list of its events, whether it has room or not |
| EventBus.ExactIsPrefix | backend/app/events/bus.py:86-98 | a pruned or departed stream saw a prefix of what it would have seen, a live one all of it |
| EventBus.EventBus.Subscribe | backend/app/events/bus.py:40-56 | a new empty queue from now on under the given or generated identifier; an earlier one under it ends here; all others are untouched |
| EventBus.EventBus.Unsubscribe | backend/app/events/bus.py:58-63 | the subscriber leaves and its piece of the history ends; an unknown identifier changes nothing |
| EventBus.EventBus.Publish | backend/app/events/bus.py:75-98 | every live queue of the mailbox gets the event, in order; exactly the full ones miss it and are pruned; nothing else changes, and every queue stays exact |
| EventBus.EventBus.FanOut | backend/app/events/bus.py:86-94 | the loop offers the event to each subscriber once, and the stale list is exactly those that missed it |
| EventBus.Receive | backend/app/events/router.py:33-57 | a consumer at work keeps the promise of the whole bus |
| ScheduleClaims.Schedule.UpdateIfExpected | backend/app/deliverability/scheduler.py:86-99 | the conditional update moves the next run only if it is still the expected one, and reports it |
| ScheduleClaims.Schedule.Save | backend/app/deliverability/service.py:1505-1519 | enabling or filling an empty schedule sets its next run, disabling clears it, other edits leave it |
| ScheduleClaims.ClaimMeans | backend/app/deliverability/scheduler.py:86-99 | a claim of the run still due moves it on by the interval in minutes from now and notes the time; any other changes nothing |
| ScheduleClaims.EditMeans | backend/app/deliverability/service.py:1505-1519 | what an uninterrupted edit stores, and which next run that leaves |
| ScheduleClaims.StaleEditMeans | backend/app/deliverability/service.py:1493-1528 | a stale edit writes exactly the fields that differ from what it loaded |
| ScheduleClaims.DisableMeans | backend/app/deliverability/scheduler.py:103-108 | switching off keeps the last run and the interval |
| ScheduleClaims.TakesUpIff | backend/app/deliverability/scheduler.py:64-84 | a worker takes up a schedule just when it is enabled and due |
| ScheduleClaims.StepKeepsSafe | backend/app/deliverability/scheduler.py:64-109 | every step of any worker, on reads however stale, keeps the claims good and the next run claimable |
| ScheduleClaims.SafeIff | backend/app/deliverability/scheduler.py:64-109 | a state is safe just when no continuation without edits repeats a run or claims one within the minimum interval |
| ScheduleClaims.SaveHarmlessIff | backend/app/deliverability/service.py:1493-1528 | an edit is harmless over every continuation just when it sets no next run, leaves the schedule disabled, or sets a claimable one |
| ScheduleClaims.LateSaveBreaks | backend/app/deliverability/service.py:1493-1528 | read off the stored row: an edit whose next run is within the minimum interval of the last claim, saved before that interval is over, lets some continuation break the promise |
| ScheduleClaims.RunKeepsSafe | backend/app/deliverability/scheduler.py:64-109 | every run stays safe whose edits set no next run within the minimum interval of the stored last claim |
| ScheduleClaims.ClaimsExclusiveAndSpaced | backend/app/deliverability/scheduler.py:64-109 | no due run is claimed twice and claims are a minimum interval apart, over every interleaving and across edits that are on time by the stored row |
| ScheduleClaims.AtomicEditsOnTime | backend/app/deliverability/service.py:1493-1528 | uninterrupted edits are on time |
| ScheduleClaims.AtomicEditsExclusiveAndSpaced | backend/app/deliverability/scheduler.py:64-109 | with uninterrupted edits the guarantee needs nothing else |
| ScheduleClaims.ScheduledIffEnabled | backend/app/deliverability/service.py:1505-1519 | after any run with uninterrupted edits a schedule has a next run just when it is enabled, so an enabled one never stops running |
| ScheduleClaims.OneWinner | backend/app/deliverability/scheduler.py:85-102 | two workers that selected the same run: the first to swap gets it, the second nothing |
| ScheduleClaims.AloneClaims | backend/app/deliverability/scheduler.py:64-109 | a worker left alone claims a due schedule and sets its next run from now |
| ScheduleClaims.LateEditRepeatsClaim | backend/app/deliverability/service.py:1493-1528 | an edit that stalls past a claim puts the claimed run back: the concrete run that claims it twice |
| RefreshRotation.User.Rotate | backend/app/auth/router.py:562-575 | the conditional update raises the version once and returns it, or matches no row |
| RefreshRotation.MayRefreshIff | backend/app/auth/router.py:531-560 | only the refresh token of this user and the current version refreshes, and only while the user is active |
| RefreshRotation.AcceptedIff | backend/app/dependencies.py:112-150 | which tokens an ordinary request is accepted with |
| RefreshRotation.StepVersion | backend/app/auth/router.py:562-575 | a step lowers the version just when a write-back is two changes late; a success always raises it |
| RefreshRotation.NeverFalls | backend/app/auth/router.py:562-575 | otherwise the version never falls |
| RefreshRotation.RevocationLastsIff | backend/app/auth/router.py:478-594 | the version never falls just when no write-back is two changes late |
| RefreshRotation.NoneSkipped | backend/app/auth/router.py:478-594 | over any run no version between the first and the highest is ever skipped, and write-backs under way loaded one of them |
| RefreshRotation.FallReturnsHeld | backend/app/auth/router.py:478-485 | a fall of the version always lands on one the account held before |
| RefreshRotation.NeverReturnsIff | backend/app/auth/router.py:478-594 | a version once left is never the account's again just when no write-back is two changes late |
| RefreshRotation.SpentTokensRejected | backend/app/auth/router.py:556-575 | after a success no token of that version or an earlier one is refreshed or accepted again |
| RefreshRotation.StepKeepsInvariant | backend/app/auth/router.py:531-594 | every step keeps successes ordered and below the current version |
| RefreshRotation.RunKeepsInvariant | backend/app/auth/router.py:531-594 | so does every run of any number of requests |
| RefreshRotation.OneRotationPerVersion | backend/app/auth/router.py:531-594 | at most one refresh succeeds for a token version, and versions strictly increase along the successes |
| RefreshRotation.RotationsWereAdmitted | backend/app/auth/router.py:531-594 | over any run, late write-backs included, every rotation was admitted by a valid refresh token of the version it spent |
| RefreshRotation.IssuedTokensWork | backend/app/auth/router.py:562-594 | the pair that a rotation issues is accepted and refreshes |
| RefreshRotation.SafeIff | backend/app/auth/router.py:531-594 | no continuation without write-backs refreshes a version twice just when none has been and none from the current version on was refreshed |
| RefreshRotation.BumpHarmlessIff | backend/app/auth/router.py:478-485 | a write-back is harmless over every continuation just when it lands above every version that was refreshed |
| RefreshRotation.HarmlessOncePerVersion | backend/app/auth/router.py:478-594 | no version is refreshed twice over any run of harmless write-backs, even where the version falls |
| RefreshRotation.AtomicBumpsKeepUp | backend/app/auth/router.py:478-485 | uninterrupted logouts and password changes meet the condition |
| RefreshRotation.LogoutRevokesIff | backend/app/auth/router.py:478-485 | a logout revokes the tokens valid when it commits unless exactly one change came between its load and its commit |
| RefreshRotation.LateLogoutReplays | backend/app/auth/router.py:478-485 | a logout two rotations late lets a spent token be refreshed again: the concrete run |
| KeyDelegation.IsSubsetIff | backend/app/auth/scopes.py:213-222 | the check holds just when the child satisfies no requirement that the parent does not |
| KeyDelegation.RequestedMembers | backend/app/auth/scopes.py:205-205 | the normalised list names exactly the requested catalogue scopes |
| KeyDelegation.NormalizeMeaning | backend/app/auth/scopes.py:187-205 | a request is refused just for unknown scopes, which it reports; otherwise it grants what was named, or everything for nothing, and never an empty list |
| KeyDelegation.WithinIff | backend/app/dependencies.py:39-66 | a key may do only what its parent may just when it has no scope, or its scopes and its allow-list are the parent's or fewer |
| KeyDelegation.GuardSound | backend/app/auth/router.py:645-667 | a passed grant is within the caller's authority unless it is an empty allow-list under a restricted caller |
| KeyDelegation.GuardComplete | backend/app/auth/router.py:645-667 | the guard refuses no grant of any scope that is within the caller's authority |
| KeyDelegation.GuardExact | backend/app/auth/router.py:645-667 | both directions for every grant: within authority just when passed and not that case, or when it grants no scope at all |
| KeyDelegation.NoScopesWithin | backend/app/dependencies.py:40-42 | a key stored with an empty scope list may do nothing; the guard then goes by its mailboxes alone |
| KeyDelegation.ResolvedNeverEmpty | backend/app/auth/router.py:619-642 | an allow-list is never stored empty, and every address in it is the user's own |
| KeyDelegation.KeyTable.CreateApiKey | backend/app/auth/router.py:676-730 | the checks in their order, and on success one new key and nothing else changed |
| KeyDelegation.KeyTable.UpdateApiKey | backend/app/auth/router.py:755-810 | an edit that nothing interrupts: only present fields change, only on the user's own key, and only if the whole resulting grant passes |
| KeyDelegation.KeyTable.CommitEdit | backend/app/auth/router.py:793-803 | the commit writes the fields it changed over whatever row is stored by then, and leaves the others |
| KeyDelegation.CreatedWithin | backend/app/auth/router.py:676-730 | a created key is within its creator's authority and has no empty list |
| KeyDelegation.EditedWithin | backend/app/auth/router.py:766-791 | the grant that an edit guards, on the key as it was loaded, is within its editor's authority and has no empty list |
| KeyDelegation.EmptyListEscapes | backend/app/dependencies.py:44-48 | with a stored empty list the guard passes an unrestricted key: the concrete edit |
| KeyRequests.ResolvedIff | backend/app/auth/router.py:619-642 | no restriction just when nothing non-blank was named; refused just when some named address is not the user's, reporting those; otherwise the list holds exactly the addresses named |
| KeyRequests.CreatedIff | backend/app/auth/router.py:676-730 | a key is created just when the caller may manage keys, all it names exists and is the user's, and it asks for nothing that the caller may not do itself |
| KeyRequests.CreatedDoesAsAsked | backend/app/auth/router.py:676-730 | the new key may do exactly what was asked for |
| KeyRequests.NotWellAsked | backend/app/auth/router.py:676-700 | otherwise the first thing that is wrong is reported |
| KeyRequests.EditedDoesAsAsked | backend/app/auth/router.py:755-803 | an edit gives present fields what they ask for and keeps absent ones |
| KeyRequests.EditedIff | backend/app/auth/router.py:755-803 | a stored key is edited just when the request is well asked and the key would then do nothing that the caller may not |
| KeyRuns.CommitWithinIff | backend/app/auth/router.py:766-803 | the row that an edit leaves is within who makes the request just when the field it does not write of the stored row is: the exact condition for stale loads |
| KeyRuns.UninterruptedEdit | backend/app/auth/router.py:755-810 | a request that nothing interrupts stores what the guard let through |
| KeyRuns.UninterruptedCreate | backend/app/auth/router.py:676-730 | the same for creating |
| KeyRuns.LoadMeans | backend/app/auth/router.py:766-787 | an edit goes by the key stored when it is loaded, and a key that edits itself by the copy its request entered with |
| KeyRuns.RevokedKeyEntersNoMore | backend/app/auth/router.py:812-842 | a revoked key is gone, and no request enters with it later |
| KeyRuns.RunKeepsLists | backend/app/auth/router.py:619-810 | no run stores an empty allow-list or changes a key's user, however requests overlap |
| KeyRuns.NoEscalationIff | backend/app/auth/router.py:645-810 | over any run no request leaves a key broader than who makes it just when every edit fits the row it finds |
| KeyRuns.DerivedWithinRoot | backend/app/auth/router.py:619-810 | whatever sessions and other keys do meanwhile, every key written along a chain from a starting key, and every request made with one, stays within what that key could do at the start, if the chain's own edits fit the rows they find |
| KeyRuns.AuthorityNeverGrows | backend/app/auth/router.py:619-810 | when only keys act and every edit fits, no key and no request ever exceeds what some key of the same user could do at the start |
| KeyRuns.UndisturbedNeverGrows | backend/app/auth/router.py:619-810 | all three hold where no edit finds its key changed since it was loaded |
| KeyRuns.AloneUndisturbed | backend/app/auth/router.py:766-803 | which is so if nothing writes or revokes the key between an edit's load and its commit |
| KeyRuns.OwnEditUndisturbed | backend/app/auth/router.py:766-803 | for a key that edits itself, from the moment its request enters |
| KeyRuns.OverlappingEditsEscape | backend/app/auth/router.py:766-803 | two keys edit a third one, one its mailboxes and the other its scopes: the concrete run after which it may do what none of the three could |
| ConversationMerge.EarliestExists | backend/alembic/versions/020_postgres_scale.py:43-56 | among conversations with one key there is an earliest |
| ConversationMerge.CanonicalOfKey | backend/alembic/versions/020_postgres_scale.py:43-57 | conversations with one key share one canonical conversation |
| ConversationMerge.OrderedRest | backend/alembic/versions/020_postgres_scale.py:43-57 | in the query's order the first is canonical and the others are exactly the redundant ones |
| ConversationMerge.AfterOneMore | backend/alembic/versions/020_postgres_scale.py:58-70 | folding one more duplicate commutes with those folded before |
| ConversationMerge.Database.SelectOrdered | backend/alembic/versions/020_postgres_scale.py:44-56 | the conversations with one key, each once, by creation and identifier |
| ConversationMerge.Database.FoldRest | backend/alembic/versions/020_postgres_scale.py:57-70 | after the inner loop all others with the key are folded into the first |
| ConversationMerge.Database.MergeKey | backend/alembic/versions/020_postgres_scale.py:43-70 | one duplicate key's redundant conversations are merged and no other's |
| ConversationMerge.Database.MergeDuplicateConversations | backend/alembic/versions/020_postgres_scale.py:32-70 | both nested loops leave exactly the canonical conversations, in any order of the keys |
| ConversationMerge.MergedKeysUnique | backend/alembic/versions/020_postgres_scale.py:32-70 | afterwards (provider, external id) is unique, and merging again changes nothing |
| ConversationMerge.NoKeyLost | backend/alembic/versions/020_postgres_scale.py:32-70 | no key is lost; what is kept is the earliest conversation, unchanged |
| ConversationMerge.MessagesKeepTheirKey | backend/alembic/versions/020_postgres_scale.py:32-70 | no message is lost, and each points to a remaining conversation with the key it had |
| CampaignAccounts.CollectRows | backend/alembic/versions/020_postgres_scale.py:172-180 | the rows of all lists in order, or an error just when an account is missing, naming it |
| CampaignAccounts.InsertRows | backend/alembic/versions/020_postgres_scale.py:212-220 | the inserts succeed just when no key repeats, and then the table holds exactly the rows |
| CampaignAccounts.Upgrade | backend/alembic/versions/020_postgres_scale.py:170-220 | the upgrade goes through just when every account exists and no campaign lists one twice |
| CampaignAccounts.RowOrigin | backend/alembic/versions/020_postgres_scale.py:172-180 | a row is there just when its account stands at its position in its campaign's list |
| CampaignAccounts.KeysDistinctIff | backend/alembic/versions/020_postgres_scale.py:196-210 | the primary key holds just when no list repeats an account |
| CampaignAccounts.Regroup | backend/alembic/versions/020_postgres_scale.py:385-388 | grouping in query order gives each campaign its accounts in that order |
| CampaignAccounts.OfCampaignMembers | backend/alembic/versions/020_postgres_scale.py:385-388 | a campaign's group has exactly its rows |
| CampaignAccounts.OfCampaignOrder | backend/alembic/versions/020_postgres_scale.py:379-388 | a campaign's group is in order of position, without repetition |
| CampaignAccounts.OrderIsUnique | backend/alembic/versions/020_postgres_scale.py:379-388 | the positions leave only one order |
| CampaignAccounts.RoundTrip | backend/alembic/versions/020_postgres_scale.py:379-395 | exploding and regrouping restores every campaign's list, whatever answer in order the query gives |

## Left out

- Canary.StagedSend.Decide: does not model the decision's time stamp and reason text, which no other step reads.
- Canary.StagedSend.ApplyBounce: models one batch; the service updates the matching rows of every batch.
- Sampling.EvenSpread: ranks are rounded from exact fractions; the service's floating-point step can round differently.
- CanaryRuns.AtMostOneAttempt: counts attempts, not deliveries; what the mail server does after accepting is not modelled. A query sees what is committed at that moment, a failed commit is a session cut off, and each bounce or cancellation is one step.
- CanarySampleSize.SampleGrowth: an upper bound over runs; it is exact for the first scoring, and a second one can reach twice the size.
- Calibration.CalibrationReport: bins carry their index instead of the rounded bounds, and rounding for display is left out.
- Risk.ComputeRisk: does not model the list of contributions, explanations and confidence texts beside the score.
- Risk.RiskMonotone: the signal contributions enter as one sum, and logit and sigmoid only as increasing functions.
- Budget.SelectWithinBudget: sorts by an exact real key; floating-point sums and the rounding of the mean are left out.
- SpfSemantics.MatchIsSafe: the verdict of a record without a matching term is neutral, so what a `redirect` leads to is not followed; such records match only token for token.
- SpfRecord.ValidateSpfRecord: parsing of IP addresses and networks is a pair of function parameters.
- SpfExpansion.Walker.Resolve: a failed query answers no values; how a name is normalised to IDNA is a parameter.
- SpfStandard.DisagreesIff: counts every term of the tree, as if no mechanism matched and no `all` made a `redirect` void; terms with more than one qualifier are malformed and left out.
- KeyRuns.DerivedWithinRoot: identifiers are never given twice; an edit whose row is gone fails and writes nothing; names and the time of last use are left out, and each revocation is one step.
- EventBus.EventBus.Publish: listeners, which run after the fan-out and touch no queue, are left out; the subscribers are visited in any order.
- EventBus.Receive: waiting and keep-alive messages of the stream are left out; reading an empty queue returns nothing.
- ScheduleClaims.ClaimsExclusiveAndSpaced: one schedule's row; workers that select another row do not touch it, and row locks only remove interleavings.
- RefreshRotation.SpentTokensRejected: signatures and expiry are left out; an undecodable token is an absent one.
- KeyDelegation.ResolvedNeverEmpty: allow-lists are sets, so their sorted order is not captured; a mailbox's owner is given, not looked up.
- ConversationMerge.Database.MergeDuplicateConversations: messages and conversations keep only the columns the merge reads or writes.
- CampaignAccounts.RoundTrip: the decoding of stored JSON is left out, and nothing changes the table between upgrade and downgrade.
- Strings are ASCII for case folding and white space; Unicode folding is not modelled.
- The other slots of the DNS audit and the stamping of check results compare or copy single fields; they would only add easy members.
- Report comparison and the baseline flag of the deliverability service count and set single fields; they would only add easy members.
- Message scoring, DSN and MIME parsing, provider tables and mail, DNS and HTTP transport.
- Password hashing, TOTP, login lockout and token signing.
- SQL beyond atomic commits, conditional updates, ordered queries and primary keys.
