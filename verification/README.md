# Protocol kernels of the timeline engine, in Dafny

This project models seven kernels of the timeline engine and proves what each of them promises.
The programs decide, on one person's behalf, when to suggest, when to act, when to ask and when to stop; the
kernels are the pure or nearly pure protocols underneath, with their stores and transports left outside.

- **The dream proposal** (`Dream*.dfy`): an append-only log is sorted, de-duplicated, truncated to the latest event of
  every kind plus a tail, and folded into a projection. `DreamLog` is the log and the fold, `DreamReplay` an
  independent reading of a log against which the fold is proved, `DreamTies` what becomes of events that share a sort
  key, `DreamLossless` the theory of truncation, `DreamCaps` that theory at one cap,
  `DreamWriters` at two caps in a row, `DreamRuns` the transition table over whole runs.
- **The evidence kernel and the decision policy** (`Evidence`, `Decision*.dfy`, `Fidelity*.dfy`): eligibility as of an
  instant, nearest neighbours, votes, effective sample size, conflict, an advisor that may only veto, and an
  expanding-window benchmark. `DecisionPolicy` and `FidelityEvaluator` hold the definitions, `DecisionEngine` the loops
  that fill dictionaries in place, `DecisionLaws` and `FidelityLaws` the theorems.
- **The capture spool** (`CaptureProtocol`, `CaptureSpool`, `CaptureHook`, `CaptureDrain`, `CaptureSeries`,
  `CaptureBytes`): a bounded on-disk queue, redelivery to a de-duplicating server, lost replies, eviction and
  quarantine, as a step relation; the spool, the server and the hook's state are classes whose methods are proved to
  take its steps. `CaptureDrain` says who is ever redelivered, `CaptureSeries` the same under few slots and failing
  requests, `CaptureBytes` what a failed run leaves of the byte cap.
- **Authority** (`CharterPaths`, `Charter`, `CharterStore`, `PermitEndpoint`): path containment by strings and by
  segments, narrowing as an action that only shrinks or raises, what is resolved from stored narrowings as time passes,
  and the permit ladder, up to the endpoint that reads the risk off the words of a request. `Actions` holds the theory
  of such folds.
- **The effect journal**, **the turn deadline**, and **decision capture** with its promotion gate (`EffectJournal`,
  `Deadline`, `DecisionCapture`, `CapturePromotion`).

Loops of the source are methods with loops here, and objects that it updates are classes; each is proved equal to a
function of its inputs or of the old state, and the theorems are about those functions. Digests are taken as
injective (a revision is the list of keys it is computed from). Regular expressions, tokenisers, JSON coercions and
normalisers appear as readings: parameters that return what the source's helper returns. Arithmetic on scores is exact
and rounding is left out; the square root in the Wilson interval is any non-negative root with the right square.

## Where the code and its documentation differ

- Truncation is described as exactly lossless (`shared/tce_shared/aspirations.py:343-348`, `1269-1272`). It is not, in
  general: `evidence_cutoff_at`, `evidence_basis`, `evidence_revision`, `plan_root_goal_id` and `expires_at` fall back
  to an earlier event's value, and that event can be dropped. A revalidation that loses every citation is stored
  without a cutoff (`services/tce_lite_api/tce_lite_api/dream_store.py:1386-1398`), so the case is reachable.
  `LosslessAtIff` is the exact condition at one cap, `InheritedCutoffIsLost` a run for every cap it exceeds, and
  `LossAtTheStoresCap` a run of 501 events that loses its cutoff at the cap of 500 that the stores fold with. For a
  writer that adds to a window `WriterOnWindowIff` is the exact condition at a pair of caps, with runs that lose in the
  first window and in the second (`FirstWindowLosesAtTheStoresCap`, `SecondWindowLosesAtTheStoresCap`).
- Two writers that stamped one sequence number are said to fold identically (`aspirations.py:1261-1263`). `occurred_at`
  is outside the sort key, and six kinds of event read it: the folds agree exactly when whatever is tied with a latest
  event of its kind stamps the same time (`FoldIsCanonicalIff`), and two showings that occurred at different times fold
  apart (`TwoWritersDisagree`). The ordered list itself is canonical only when keys identify whole events
  (`OrderIsCanonicalIff`), which is more than the fold needs.
- `abandoned` is listed as terminal (`aspirations.py:354`) and is left by an accept (`aspirations.py:376`).
- An exact-text choice need not map to itself: an offer with the same tokens and a smaller key wins the tie
  (`ExactTextMapsToItselfIff`, `ExactTextIsLost`).
- "The charter can only make the answer stricter" (`shared/tce_shared/autonomy_goals.py:110-118`) holds of the function.
  At the endpoints (`services/tce_lite_api/tce_lite_api/store.py:7215`, `services/tce_api/tce_api/main.py:11755`) the
  sensitivity answer is also recomputed from the charter, and a charter can turn a confirmation that only the legacy
  token list asked for into an allow. Two of the four tokens are risk terms as well and never come to that
  (`TwoTokensAreRisks`); the other two do exactly under `IssueLoosensIff`, and editing `.env` is such a request
  (`CharterLoosensEnvironmentFile`).
- The ladder's bounds of 20 changes for the consultative profile and 30 for the safe one
  (`shared/tce_shared/autonomy_goals.py:166-172`) decide nothing at the endpoints, where the tier is medium only from 25
  changes on and low only below (`AllowedIff`,
  `AllowedUnderCharterIff`).
- Normalising roots is said to make removals effective (`shared/tce_shared/charter.py:506-512`). The spellings of the
  whole tree normalise to nothing, and removing one of them leaves the others in place (`RemovalMissesIff`);
  removing `./` from the root `.` is such a case (`RemovalOfTheTreeMisses`).
- `narrow_charter` is documented never to raise (`charter.py:500`). It compares the date of a narrowing with the
  charter's (`charter.py:542-545`), and a date without an offset cannot be compared with one that has it. The request
  model admits such a date (`shared/tce_shared/events.py:1820-1835`), and the full store writes it into the payload
  (`services/tce_api/tce_api/charter_store.py:276-318`): every resolution raises until the row lapses. `FoldRaisesIff`
  is the exact condition, lists that are none and infinite caps included, `ValidatedFoldRaisesIff` the one for admitted
  payloads, `OffsetlessExpiryRaises` the input.
- A narrowing in the full store lapses at the very date that it imposes as the charter's lifetime
  (`charter_store.py:92-106`), so that the charter is active again, with what was taken, from that instant on
  (`MonotoneIff`, `DatedTwiceIsMonotoneIff`, `AuthorityComesBack`).
- "`capture_delivery_state` != delivered" is called all the hook needs in order to warn
  (`shared/tce_shared/capture_spool.py:18-19`). An eviction in a run whose own delivery succeeds leaves that state
  delivered and clears `gap_since` (`EvictionShowsIff`, with the run in `LostQuietly`);
  the gap file still names it.
- A capture larger than the byte cap evicts the whole spool, itself included, and is written back when its delivery
  fails, so that it is pending and named in a gap at once (`NewestIsEvictedIff`, `CapAfterFailedRunIff`).
- The byte cap is enforced before the delivery (`scripts/tce_capture_input.py:484-490`), and a failed delivery rewrites
  the capture with its error. The cap then holds exactly when the longer copy still fits beside what eviction left
  (`ByteCapAfterFailedRunIff`); one that fitted to the byte no longer does (`ByteCapBreaks`).
- A drain reads the six oldest entries whether or not they may be retried. An entry behind six exhausted ones is never
  attempted while they stay, and with fewer it is reached in bounded time (`ReachedIff`, `HiddenUntilEvicted`,
  `SixStall`), also when requests get lost (`ReachedInSeriesIff`); a refusal that exhausts a sixth closes the way
  (`RefusalHides`).
- A path that was normalised once and begins with a tilde is nothing when it is normalised again
  (`NormRelIdempotentIff`, `HomeLookIsLost`).
- Commands default to undetermined reversibility because they may be irreversible
  (`shared/tce_shared/effect_journal.py:12-14`); only effects declared irreversible are protected from being closed by
  the worker that ran them (`WorkersCanCloseIff`).
- An affirmative acknowledgement to a question whose two alternatives both deny selects the first of them
  (`AckFlipsIff`, `AcksFlip`).
- The promotion gate does not look at who spoke, beyond setting transcripts aside; that only human input is promoted
  holds of extraction and promotion together (`PromotedIsHuman`, `GateAloneTrustsAnyone`).

## Model

| member | source | states |
|---|---|---|
| DreamLog.Dedupe | shared/tce_shared/aspirations.py:1225-1234 | The in-place de-duplication keeps exactly the first event of each sort key, in order. |
| DreamLog.PinnedEvents | shared/tce_shared/aspirations.py:1275-1283 | The scan collects the latest event of every kind, in the fixed order of kinds. |
| DreamLog.ReplayWindow | shared/tce_shared/aspirations.py:1318-1405 | The event loop over the projection's locals ends at the replay of the log; unknown kinds are listed and change nothing. |
| DreamLog.FoldDreamProposal | shared/tce_shared/aspirations.py:1246-1459 | Sorting, de-duplicating, truncating and replaying in place give the fold of the events, with its revision keys and truncation flag. |
| DreamLog.PrepareDreamWrite | shared/tce_shared/aspirations.py:1462-1503 | New events are stamped consecutively above the highest sequence number and folded on top of the prior ones. |
| DreamReplay.ReplayIsLatestSays | shared/tce_shared/aspirations.py:1318-1405 | The replay, a step at a time, equals an independent reading of the log in which every field is what its latest writer said. |
| DreamReplay.OrderedFacts | shared/tce_shared/aspirations.py:1225-1243 | The ordered log is strictly increasing in its keys and holds, for every key, one event that carries it. |
| DreamReplay.FoldCanonical | shared/tce_shared/aspirations.py:1221-1265 | Any reordering or duplication of the same events gives the same projection and revision, provided equal sort keys mean equal events. |
| DreamReplay.OrderIsCanonicalIff | shared/tce_shared/aspirations.py:1221-1222 | The ordered list of events, times and actors included, is a function of the set of events if and only if keys identify events. |
| DreamTies.ArrangementsAreTwins | shared/tce_shared/aspirations.py:1221-1243 | Where keys tell kind and content, any two arrangements of the same events are ordered into logs alike but for times and actors. |
| DreamTies.FoldIsCanonicalIff | shared/tce_shared/aspirations.py:1221-1265 | Exact condition for the claim that two writers fold alike, for events whose key tells kind and content and showings made by their one constructor: under any cap, every arrangement of the same events has one fold if and only if whatever is tied with a latest event of a kind stamps the same time on that kind's field. |
| DreamTies.TwoWritersDisagree | shared/tce_shared/aspirations.py:1261-1265 | Two showings under one sequence number, alike but for when they occurred, fold to two projections at the stores' cap, depending on which is listed first. |
| DreamLossless.RetentionIsLossless | shared/tce_shared/aspirations.py:343-348 | Any sub-log that keeps the latest event of every kind replays to the projection of the whole log, when showings are stamped and fallback fields persist per kind. |
| DreamLossless.CapIsLossless | shared/tce_shared/aspirations.py:1265-1283 | Under that log invariant, truncation under every cap leaves the projection of the full log. |
| DreamLossless.WindowThenAppendIsLossless | shared/tce_shared/aspirations.py:1462-1500 | Folding an already truncated window plus new events equals folding the full log plus those events, under every pair of caps. |
| DreamWriters.WriterOnWindowIff | shared/tce_shared/aspirations.py:1462-1503 | Exact condition for a pair of caps, for stamped showings and additions stamped after the log: a writer on a truncated window projects what one on the whole log does if and only if each inherited field's last supplier was added or spared by the first window, and spared by the second, or else the latest events of the log and of the whole that the writer still sees, at most two of a kind, say the same; and the greatest ordinal and the attestation are among the showings it sees. |
| DreamWriters.OnlyLatestAnswer | shared/tce_shared/aspirations.py:1265-1283 | Whatever is left to answer for a supplier lost on the way is the latest of its kind, in the log or in the whole. |
| DreamWriters.FirstWindowLosesAtTheStoresCap | shared/tce_shared/aspirations.py:1462-1503 | A permitted log of 501 events and one showing added on top of its window at the cap of 500: the writer has lost the evidence cutoff, whatever cap it folds with. |
| DreamWriters.SecondWindowLosesAtTheStoresCap | shared/tce_shared/aspirations.py:1462-1503 | A permitted log of 500 events, which the first window keeps whole, and one revalidation added: the second window loses the cutoff. |
| DreamLossless.HeadsCarryEveryCap | shared/tce_shared/aspirations.py:1265-1283 | When those seven readings agree, the window under every cap, tail or no tail, replays to the full projection. |
| DreamLossless.LosslessIff | shared/tce_shared/aspirations.py:1265-1283 | Agreement at every cap comes down to agreement at the smallest, where only the latest event of each kind is left: seven readings of those have to be the readings of the whole log. |
| DreamCaps.LosslessAtIff | shared/tce_shared/aspirations.py:1265-1283 | Exact condition at one cap, for stamped showings: the projection survives if and only if the log fits, or the last supplier of each of the five inherited fields is in the tail, or the latest of its kind, or the latest events say the same, and the greatest ordinal and the attestation are among the showings spared. |
| DreamCaps.InheritedAtIff | shared/tce_shared/aspirations.py:1265-1283 | One inherited field at one cap: it survives if and only if its last supplier is spared or the latest events of the kinds say the same. |
| DreamCaps.ShowingsAtIff | shared/tce_shared/aspirations.py:1348-1354 | Count, attestation and times of the showings survive one cap if and only if some spared showing has the greatest ordinal and, where any attests, some spared one does. |
| DreamCaps.LossAtTheStoresCap | shared/tce_shared/aspirations.py:1265-1283 | A permitted run of 501 events whose evidence cutoff is lost at the cap of 500 that the stores fold with. |
| DreamLossless.ShowingsKept | shared/tce_shared/aspirations.py:1348-1354 | Stamped showings keep their count, attestation and first and last times in every retained sub-log. |
| DreamRuns.FoldedStatusIsStepwise | shared/tce_shared/aspirations.py:1246-1405 | The status that a fold reads of any events in any listing, under any cap, is the one that the whole ordered log reaches one event at a time: truncation never loses it. |
| DreamRuns.FoldedRunIsStepwise | shared/tce_shared/aspirations.py:1246-1405 | So it is at every moment of a log, whatever the cap it was folded with at that moment. |
| DreamRuns.FinalStatusIsForever | shared/tce_shared/aspirations.py:375-380 | Completed, rejected, withdrawn and expired never change status again in any further run. |
| DreamRuns.AbandonedIsLeftOnlyByAccept | shared/tce_shared/aspirations.py:376 | Abandoned, although listed among the terminal statuses, is left, and only by an accept. |
| DreamRuns.AcceptedHasAnAccept | shared/tce_shared/aspirations.py:363-380 | An accepted status goes back to an accept after which the status stayed accepted. |
| DreamRuns.PursuedHasAPursuit | shared/tce_shared/aspirations.py:363-380 | A pursued status goes back to a pursuit start that itself follows an accept. |
| DreamRuns.CompletedWasPursued | shared/tce_shared/aspirations.py:363-380 | Completed implies an accept, then a pursuit start, then the completion, in that order. |
| DreamRuns.FoldedCompletionWasPursued | shared/tce_shared/aspirations.py:363-380 | A fold under any cap reads completed only of a run that holds an accept, a pursuit standing until the completion, and the completion. |
| DreamRuns.FoldedFinalStatusIsForever | shared/tce_shared/aspirations.py:375-380 | A final status once read under one cap is read of every later log under any other. |
| DreamRuns.GrownShowings | shared/tce_shared/aspirations.py:1175-1211 | When each showing is built from the locked row, the surfaced count is the number of showings and the latest showing carries it. |
| DreamRuns.GrownReadsTheSameUnderEveryCap | shared/tce_shared/aspirations.py:1265-1283 | A log grown that way, whose kinds keep supplying the fallback fields, reads the same under every cap, non-response state included. |
| DreamRuns.WriterOnWindowAgrees | shared/tce_shared/aspirations.py:1462-1503 | A writer holding only the truncated window writes the projection a writer holding the whole log writes. |
| DreamCaps.InheritedCutoffIsLost | shared/tce_shared/aspirations.py:1398-1405 | A permitted run of any length in which a revalidation without a cutoff inherits one that every cap drops whose tail stops short of the revalidation that set it. |
| Evidence.EligibleEvidenceRows | shared/tce_shared/behavior_fidelity.py:341-368 | The accumulating scan for contradicted ids yields exactly the eligible rows. |
| Evidence.EligibleExactly | shared/tce_shared/behavior_fidelity.py:310-368 | A row is eligible exactly when it is active and no active confirmed row names it as contradicted. |
| Evidence.ActivePermutesIff | shared/tce_shared/behavior_fidelity.py:310-338 | Exactly when the order of listing does not matter to which rows are active: rows that share the id of a successor somebody waits for agree on whether it has taken effect. |
| Evidence.EligiblePermutes | shared/tce_shared/behavior_fidelity.py:341-368 | Under that condition the same rows are eligible however they are listed; it holds where rows that share an id are the same row. |
| Evidence.SharedIdMakesOrderMatter | shared/tce_shared/behavior_fidelity.py:348 | With one id on two rows listing order does matter: two orders of the same rows with different active rows. |
| Evidence.EligibleIsIdempotent | shared/tce_shared/behavior_fidelity.py:371-379 | Under that condition, filtering the eligible rows again at the same instant drops nothing. |
| Evidence.SharedIdIsFilteredTwice | shared/tce_shared/behavior_fidelity.py:348 | With one id on two rows a second filtering can drop a row that the first kept. |
| Evidence.OneVersionIsActive | shared/tce_shared/behavior_fidelity.py:310-338 | In a complete supersession chain with increasing `valid_from`, read historically, at most one row is active at any instant, and it is the latest in effect. |
| Evidence.NeighboursPermute | shared/tce_shared/behavior_fidelity.py:513-516 | Where rows that share an id are the same row, the nearest rows are the same sequence whatever order the eligible rows came in. |
| Evidence.NeighboursAreNearest | shared/tce_shared/decision_policy.py:921-926 | No eligible row left out of the neighbours is nearer than one that was kept. |
| Evidence.SimilarityIsUnit | shared/tce_shared/behavior_fidelity.py:398-425 | The ranking score lies in [0, 1], overlap accounts for 0.60 of it and everything else for 0.055 to 0.40, and it is one only for a full match by a fresh correction. |
| Evidence.MapChoiceIsOffered | shared/tce_shared/behavior_fidelity.py:428-443 | Mapping never invents: it answers with an offered choice of greatest overlap at or above the floor, and fails only when nothing offered reaches it. |
| Evidence.ExactTextMapsToItselfIff | shared/tce_shared/behavior_fidelity.py:428-443 | A choice offered word for word maps to itself if and only if no offer with the same tokens has a smaller key. |
| Evidence.ExactTextIsLost | shared/tce_shared/behavior_fidelity.py:428-443 | A choice offered word for word maps to another offer of the same words in another order. |
| Evidence.CauchySchwarz | shared/tce_shared/behavior_fidelity.py:446-452 | The square of a sum of positive weights lies between the sum of squares and that times their number. |
| Evidence.SampleSizeBounds | shared/tce_shared/behavior_fidelity.py:446-452 | The effective sample size of any positive weights lies between one and their number. |
| DecisionPolicy.ValidateCitedIds | shared/tce_shared/decision_policy.py:508-530 | The loop keeps the claimed ids that were offered, each once in order of claim, and counts the invented ones. |
| DecisionPolicy.ApplyExplicitRules | shared/tce_shared/decision_policy.py:584-604 | The walk by priority and id stops at the first rule in scope that maps onto an offer. |
| DecisionEngine.CountVotes | shared/tce_shared/decision_policy.py:931-964 | One pass fills the vote, label, weight, supporter and id dictionaries with exactly the per-key and per-id values of the ballots. |
| DecisionEngine.Rank | shared/tce_shared/decision_policy.py:1018-1027 | The ranking read off the dictionaries is the ranking of the ballots, with their shares and supporters. |
| DecisionEngine.FindDisputes | shared/tce_shared/decision_policy.py:1089-1104 | The nested scan finds a residual contradiction exactly when two neighbours that voted for different options are linked, and lists the ids in order. |
| DecisionEngine.Decide | shared/tce_shared/decision_policy.py:802-1188 | The ten stages, run in place, return the decision defined from the request. |
| DecisionLaws.VotesConserve | shared/tce_shared/decision_policy.py:935-964 | Every neighbour's weight goes to exactly one option or to none: the ranked options carry the mapped weight, no more and no less. |
| DecisionLaws.SharesSumToOne | shared/tce_shared/decision_policy.py:1018-1027 | The shares of the ranked options sum to one. |
| DecisionLaws.WinnerLeads | shared/tce_shared/decision_policy.py:1018-1030 | The option ranked first has at least as many votes as any other. |
| DecisionLaws.WinnersSample | shared/tce_shared/decision_policy.py:1047-1051 | The winner's effective sample size lies between one and the number of neighbours that voted for it. |
| DecisionLaws.PairIsEnoughIff | shared/tce_shared/decision_policy.py:1051-1057 | Two voters are sample enough if and only if a*a + b*b <= 4ab for their weights a and b. |
| DecisionLaws.AgreementIsMajority | shared/tce_shared/decision_policy.py:1058-1059 | Meeting the agreement floor leaves every other option at most two thirds of the winner's votes. |
| DecisionLaws.SplitNeverAgrees | shared/tce_shared/decision_policy.py:1132-1137 | With a split at 0.80 and an agreement floor at 0.60, no split vote can meet the floor. |
| DecisionLaws.DisagreementIsNeverShortage | shared/tce_shared/decision_policy.py:1127-1145 | The reason is conflict if and only if the vote is split or disputed; such a decision is never reported as too little evidence. |
| DecisionLaws.SelectionIsSound | shared/tce_shared/decision_policy.py:883-1188 | Every selection is an offered option, adequate, in distribution and unconflicted, and cites exactly the neighbours that voted for it, each eligible and in force at decision time. |
| DecisionLaws.SelectionIsAMajority | shared/tce_shared/decision_policy.py:1053-1059 | Behind every selection two neighbours clear the similarity floor, at least two voted for it, and no other option has more than two thirds of its votes: it never rests on the tie-break. |
| DecisionLaws.TwoWitnessesSufficeIff | shared/tce_shared/decision_policy.py:1032-1188 | Two neighbours that vote alike are enough for a selection if and only if both clear the similarity floor, neither outweighs the other about fourfold, one of them overlaps the matter, and whoever has a veto endorses the option. |
| DecisionLaws.DecisionIgnoresRowOrder | shared/tce_shared/decision_policy.py:909-1104 | Listing the same rows in another order changes nothing in the whole verdict, where rows that share a successor's id agree on whether it is in effect and eligible rows that share an id are the same row. |
| DecisionLaws.AdvisorOnlyVetoes | shared/tce_shared/decision_policy.py:764-799 | Ranking, adequacy, score, distribution and conflict do not depend on the advisor; a selection stands if and only if the advisor endorses the very option selected, and an abstention stays as it was. |
| DecisionLaws.AdvisorsNeverSteer | shared/tce_shared/decision_policy.py:764-799 | Two advisors that both let a selection through let the same one through, and adding an advisor never turns an abstention into a selection where none is required. |
| DecisionLaws.KeptIsTheIntersection | shared/tce_shared/decision_policy.py:508-530 | The kept ids are the claimed ones that were offered, without repetition, and nothing is dropped if and only if nothing was invented. |
| DecisionLaws.AddedDisputes | shared/tce_shared/decision_policy.py:1089-1104 | An id is listed as conflicting by a row's scan exactly when it was listed before or is one end of a dispute of that row. |
| DecisionLaws.RuleThatApplies | shared/tce_shared/decision_policy.py:584-604 | A rule decides if and only if one in scope maps onto an offer; the one that does has no mapping rule before it in priority and id. |
| DecisionLaws.WeakExactlyWhenInadequate | shared/tce_shared/decision_policy.py:533-554 | The strength label is weak if and only if the adequacy gate fails. |
| FidelityEvaluator.PredictBehavior | shared/tce_shared/behavior_fidelity.py:474-576 | The vote loop with its citations returns the prediction defined from the rows and the query. |
| FidelityEvaluator.PairwiseHits | shared/tce_shared/behavior_fidelity.py:701-708 | The loop counts the alternatives not taken and those of them ranked below the one that was. |
| FidelityEvaluator.Replay | shared/tce_shared/behavior_fidelity.py:666-745 | The replay loop, training on each case only after predicting it, gives every case the result it has from the rows before it, and counters that tally those results. |
| FidelityEvaluator.EvaluateBehaviorFidelity | shared/tce_shared/behavior_fidelity.py:606-798 | The benchmark filters, sorts, splits, replays and gates as its definition says, or reports too little data. |
| FidelityLaws.NeverLooksAhead | shared/tce_shared/behavior_fidelity.py:666-745 | Every case cites only rows earlier in (ts, id) order that were in force at the case's instant. |
| FidelityLaws.LaterRowsChangeNothing | shared/tce_shared/behavior_fidelity.py:666-745 | Appending later cases leaves the results already obtained as they were. |
| FidelityLaws.ChronologicalKeepsTheNewest | shared/tce_shared/behavior_fidelity.py:618-631 | The replayed window holds usable cases only, and no usable case outside it is newer than one inside. |
| FidelityLaws.CountersCohere | shared/tce_shared/behavior_fidelity.py:685-694 | Top-1 hits equal the answered cases that were right and never exceed top-3 hits; every abstention is a wrong case. |
| FidelityLaws.ResultsCohere | shared/tce_shared/behavior_fidelity.py:680-708 | In every case a right answer is an answer, is among the top three, and wins every pairwise comparison. |
| FidelityLaws.MostCommonIsMost | shared/tce_shared/behavior_fidelity.py:721-729 | No constant answer occurs more often in training than the majority baseline's. |
| FidelityLaws.ConfidenceIsBounded | shared/tce_shared/behavior_fidelity.py:543-553 | A confidence lies in [0, 1] and never exceeds the winner's share of the vote. |
| FidelityLaws.WilsonContainsTheRate | shared/tce_shared/behavior_fidelity.py:460-471 | The interval lies in [0, 1] and contains the sample rate it was computed from. |
| FidelityLaws.PassedGateMeans | shared/tce_shared/behavior_fidelity.py:756-798 | A passed gate implies that point accuracy, top-3 accuracy, the share of cases answered, precision and lift over the baseline all clear their floors on the sample itself. |
| CaptureProtocol.StepConserves | shared/tce_shared/capture_spool.py:164-256 | Every step keeps the balance: every key ever written is pending, held by the server, or named in a gap, and the server holds no key twice. |
| CaptureProtocol.RunsConserve | shared/tce_shared/capture_spool.py:164-338 | So does every run of write, deliver, lose the reply, evict and quarantine steps. |
| CaptureProtocol.ConservedFromTheStart | shared/tce_shared/capture_spool.py:164-338 | Any run from the empty spool conserves. |
| CaptureProtocol.StepLeavesNothingBehind | shared/tce_shared/capture_spool.py:240-259 | No step forgets what was written or what the server holds. |
| CaptureProtocol.DeliveredMeansHeld | shared/tce_shared/capture_spool.py:405-412 | A key is removed as delivered only if the server holds it, and an undelivered one keeps its file. |
| CaptureProtocol.EvictionIsShortest | shared/tce_shared/capture_spool.py:292-338 | The evicted keys are the shortest oldest-first prefix whose removal brings the rest under both caps. |
| CaptureProtocol.NewestIsEvictedIff | shared/tce_shared/capture_spool.py:323-325 | The newest capture is evicted in its own run if and only if it alone exceeds a cap; then nothing is left. |
| CaptureSpool.Spool.WriteEntry | shared/tce_shared/capture_spool.py:164-170 | Writing is the write step of the protocol on the stored files. |
| CaptureSpool.Spool.RecordAttempt | shared/tce_shared/capture_spool.py:240-259 | Recording an attempt removes a delivered file, rewrites an undelivered one, and records a gap for a dropped one. |
| CaptureSpool.Spool.SetAsideGarbled | shared/tce_shared/capture_spool.py:198-207 | Quarantine sets aside exactly the unreadable files and names each in a gap. |
| CaptureSpool.Spool.ReadEntries | shared/tce_shared/capture_spool.py:210-223 | Reading returns the oldest readable entries in order, after quarantine. |
| CaptureSpool.Spool.EnforceCap | shared/tce_shared/capture_spool.py:292-338 | Enforcing the caps is the eviction step: the shortest prefix goes, one gap each, and the rest is untouched. |
| CaptureSpool.Spool.EvictInOrder | shared/tce_shared/capture_spool.py:319-338 | The unlink loop with its running count and total evicts exactly that prefix. |
| CaptureSpool.Spool.Deliver | scripts/tce_capture_input.py:316-320 | One delivery is the delivery step under whatever becomes of the request. |
| CaptureSpool.Spool.DrainBacklog | scripts/tce_capture_input.py:323-346 | Draining sets damaged files aside and then delivers, in order, exactly the longest run of the six oldest entries that may be retried which the slots, the bound of five and the first failed delivery allow. |
| CaptureDrain.UnhinderedDrain | scripts/tce_capture_input.py:323-346 | With time left and every request answered, a drain attempts every retryable one of the six oldest entries, up to five. |
| CaptureDrain.DeliveredAway | shared/tce_shared/capture_spool.py:240-259 | What it attempts then leaves the spool, and nothing else does. |
| CaptureDrain.ReachedIff | scripts/tce_capture_input.py:323-346 | By repeated drains that all go through, a waiting entry is ever redelivered if and only if at most five exhausted entries are older than it, and then within as many drains as there are entries waiting up to it. |
| CaptureDrain.AttemptedIsPlanned | scripts/tce_capture_input.py:323-346 | Whatever the slots and the fates of the requests, what a drain attempts begins what an unhindered one would. |
| CaptureDrain.HiddenUntilEvicted | shared/tce_shared/capture_spool.py:292-338 | Over any legal run, while six older exhausted entries escape eviction, damage and rewriting, no drain with any slots and any fates attempts the entry behind them. |
| CaptureDrain.SixStall | scripts/tce_capture_input.py:323-346 | Six refused captures at the head of a spool keep a capture that was never tried from ever being attempted. |
| CaptureSeries.ReachedInSeriesIff | scripts/tce_capture_input.py:323-346 | Under drains of any slots whose requests may get lost or meet passing refusals, a waiting entry is sure to be redelivered, once as many have opened with an arrival as there are entries waiting up to it, if and only if at most five exhausted entries are older. |
| CaptureSeries.ReachedInSeries | scripts/tce_capture_input.py:323-346 | The bound itself: each drain whose first request arrives brings the entry one nearer, and none sets it back. |
| CaptureSeries.HiddenInSeries | scripts/tce_capture_input.py:323-346 | Behind six exhausted entries it stays through every such series. |
| CaptureSeries.RefusalHides | shared/tce_shared/capture_spool.py:240-259 | A refusal that counts can close the way: of a capture tried twice before, with five exhausted older than another one, it hides that one from then on. |
| CaptureHook.HookState.ApplyDeliveryOutcome | shared/tce_shared/capture_spool.py:381-402 | The in-place update of the state is the outcome function of the old state. |
| CaptureHook.HookState.FoldOutcomes | scripts/tce_capture_input.py:500-507 | The whole fold of a run's outcomes into the state, in place, is a function of the old state and the run. |
| CaptureHook.Run | scripts/tce_capture_input.py:471-507 | A whole hook run is a legal run of the protocol that begins by spooling the capture, conserves everything, and reports delivery only of what the server holds. |
| CaptureHook.QuietIff | scripts/tce_capture_input.py:500-507 | The visible state says delivered if and only if this capture was delivered and the backlog attempt, if any, was too. |
| CaptureHook.EvictionShowsIff | shared/tce_shared/capture_spool.py:18-19 | An eviction shows in the visible state or in `gap_since` if and only if this run's own delivery failed: an eviction beside a delivery leaves no trace there. |
| CaptureHook.CapAfterFailedRunIff | scripts/tce_capture_input.py:471-507 | After a failed delivery the spool is within the file cap if and only if the cap admits one file; the capture is both pending and named in a gap if and only if it was evicted in its own run or named in a gap before, and if it was evicted nothing else is left. |
| CaptureBytes.ByteCapAfterFailedRunIff | shared/tce_shared/capture_spool.py:240-259 | After a failed delivery the spool is within the byte cap if and only if the rewritten capture, its error recorded, fits beside the others that eviction left. |
| CaptureBytes.ByteCapBreaks | shared/tce_shared/capture_spool.py:240-259 | At the real caps: 256 captures of 32 KiB fill the spool to the byte and none is evicted, and recording the failed attempt of the last takes it over the byte cap. |
| CaptureBytes.EvictionFits | shared/tce_shared/capture_spool.py:292-338 | What eviction leaves is within the byte cap, counted over the files that are there. |
| CaptureBytes.LostQuietly | shared/tce_shared/capture_spool.py:18-19 | With 500 captures of a thousand bytes waiting, a run that delivers one more evicts one and reports delivered with no gap open, although the evicted one is neither pending nor held. |
| CaptureHook.RunsOnlyGrow | shared/tce_shared/capture_spool.py:164-338 | What was written stays written and what the server holds stays held over any run. |
| CharterPaths.NormaliseRelative | shared/tce_shared/charter.py:191-203 | The loop over path chunks computes the normal form: dot and empty segments dropped, anything that escapes turned into nothing. |
| CharterPaths.UnderIsSegmentPrefix | shared/tce_shared/charter.py:206-215 | The string test holds exactly when the prefix's segments are a prefix of the path's segments, or the prefix is a spelling of the root. |
| CharterPaths.UnderIsReflexive | shared/tce_shared/charter.py:206-215 | A path that normalises to something is under itself. |
| CharterPaths.UnderIsTransitive | shared/tce_shared/charter.py:206-215 | Containment is transitive. |
| CharterPaths.EscapingPathIsUnderNothing | shared/tce_shared/charter.py:191-215 | A path is under no prefix at all if and only if it is blank, absolute, home-relative, climbs at any point, or is made of dots and slashes only. |
| CharterPaths.NormRelIdempotentIff | shared/tce_shared/charter.py:191-203 | Normalising twice equals normalising once if and only if the normal form survives trimming and does not begin with a tilde. |
| CharterPaths.HomeLookIsLost | shared/tce_shared/charter.py:191-203 | A name in the tree that begins with a tilde survives the first normalisation and is nothing after the second. |
| Charter.ResolveCharter | shared/tce_shared/charter.py:485-496 | The fold applies the stored narrowings in order and records their ids, and raises from the first that does. |
| Actions.FoldRows | shared/tce_shared/charter.py:485-496 | The loop over the rows ends at the fold of their payloads with every id recorded, or where one is refused. |
| Charter.FoldRaisesIff | shared/tce_shared/charter.py:499-546 | A fold raises if and only if some payload has a list that is none, an infinite cap, an expiry that cannot be read, or one that has an offset where the expiry the fold began with has none, or the other way round; otherwise it is the plain composition. |
| Charter.ValidatedFoldRaisesIff | services/tce_api/tce_api/charter_store.py:276-318 | Of payloads that the request model admits, only the last of these makes a fold raise. |
| Charter.OffsetlessExpiryRaises | services/tce_api/tce_api/charter_store.py:276-318 | Such a payload: one admitted date without an offset makes every fold raise that reads it, and with the offset it raises none. |
| Charter.NarrowShrinks | shared/tce_shared/charter.py:499-572 | One narrowing that does not raise grants nothing new: roots, capabilities, caps, tier, egress and lifetime only shrink, protected prefixes and denied reads only grow. |
| Charter.NarrowingsOnlyShrink | shared/tce_shared/charter.py:485-572 | So does any sequence of narrowings whose fold does not raise. |
| Charter.AtMostAnswers | shared/tce_shared/charter.py:284-304 | A charter that grants at most another's answers every question of it the safe way. |
| Charter.NarrowCommutes | shared/tce_shared/charter.py:499-572 | Two narrowings give the same charter in either order, or raise in both. |
| Charter.NarrowIsIdempotent | shared/tce_shared/charter.py:499-572 | Applying a narrowing twice is applying it once, raising included. |
| Charter.NarrowingsAreASet | shared/tce_shared/charter.py:485-496 | What is resolved, and whether it can be, depends on which narrowings were stored, not on their order or repetition. |
| Charter.RemovalMissesIff | shared/tce_shared/charter.py:506-520 | A removal leaves an equivalent root in place if and only if both name the whole tree and no removal spells the one left. |
| Charter.RemovalOfTheTreeMisses | shared/tce_shared/charter.py:506-520 | Removing `./` from a charter whose only root is `.` leaves that root in place. |
| Charter.SameRootGrantsTheSame | shared/tce_shared/charter.py:206-215 | Roots that count as the same spelling grant the same paths. |
| Charter.CharterNeverLoosens | shared/tce_shared/autonomy_goals.py:97-145 | With the sensitivity answer fixed, a permit under a charter is at least as strict as without one. |
| Charter.AtMostNeverLoosens | shared/tce_shared/charter.py:649-681 | A charter that grants at most another's gives an answer at least as strict, sensitivity recomputed or not. |
| Charter.PermitsNeverLoosen | shared/tce_shared/autonomy_goals.py:97-174 | A permit stays at least as strict under every further sequence of narrowings that does not raise, also when sensitivity is recomputed from the narrowed charter. |
| CharterStore.LoadRaisesIff | services/tce_api/tce_api/charter_store.py:320-342 | Loading the active charter raises if and only if the stored one is active and some narrowing still in force raises on it. |
| CharterStore.LaterIsNoLess | services/tce_api/tce_api/charter_store.py:92-106 | While the stored charter lasts, what is resolved later grants at least what was resolved before: time alone only gives back. |
| CharterStore.MonotoneIff | services/tce_api/tce_api/charter_store.py:92-106 | What is resolved later grants at most what was resolved before if and only if every narrowing that lapsed in between takes nothing, by its parts, from what is left. |
| CharterStore.DatedTwiceIsMonotoneIff | services/tce_api/tce_api/charter_store.py:276-318 | In the store that puts the date of a narrowing both into its payload and on its row, and as long as the resolved charter is active, that is if and only if nothing lapsed. |
| CharterStore.AuthorityComesBack | services/tce_api/tce_api/charter_store.py:92-106 | Such a run: a capability taken until 50 with a lifetime of 50 is back at 50, in a charter that is active again. |
| PermitEndpoint.ContainsActionObject | shared/tce_shared/autonomy_goals.py:39-58 | The scan finds a destructive word beside a critical object exactly when one of the former has no negation within the three words before it. |
| PermitEndpoint.AllowedIff | shared/tce_shared/autonomy_goals.py:71-174 | Without a charter the endpoint allows if and only if the caller is no advisor, no legacy token is hit, the words are harmless, and the change is under 25, or under 100 for the aggressive profile: the ladder's own bounds of 20 and 30 decide nothing. |
| PermitEndpoint.AllowedUnderCharterIff | shared/tce_shared/autonomy_goals.py:71-174 | Under a charter it allows if and only if the same words and bounds hold, the charter covers the paths, and it permits the capability without confirmation: there too 20 and 30 decide nothing. |
| PermitEndpoint.NarrowedNeverLoosens | services/tce_lite_api/tce_lite_api/store.py:7200-7226 | With risk classified and sensitivity recomputed, the endpoint's answer stays at least as strict under further narrowings. |
| PermitEndpoint.TwoTokensAreRisks | shared/tce_shared/autonomy_goals.py:71-93 | A path with either of two of the legacy tokens is high or critical risk by its words alone. |
| PermitEndpoint.IssueLoosensIff | services/tce_lite_api/tce_lite_api/store.py:7200-7226 | Having a charter loosens the endpoint's answer if and only if one of the two legacy tokens that are not also risk terms was all that asked for confirmation and the charter covers the request without it. |
| PermitEndpoint.CharterLoosensEnvironmentFile | services/tce_lite_api/tce_lite_api/store.py:7200-7226 | Such a request: editing one line of `.env` is to be confirmed without a charter and allowed under one that permits the tree and protects the default prefixes. |
| Deadline.DescendantNeverOutlives | shared/tce_shared/deadline.py:105-107 | At every moment a descendant has no more left than any ancestor. |
| Deadline.OwnClockLagsByAtMostOne | shared/tce_shared/deadline.py:121-149 | A child's restarted clock runs at most one millisecond behind what its parent has left, at any depth of nesting. |
| Deadline.OwnClockLagsByOne | shared/tce_shared/deadline.py:121-149 | A child whose clock is that millisecond behind. |
| Deadline.ChildNeverRegrants | shared/tce_shared/deadline.py:121-149 | A child never gets back what its parent had spent when it was cut. |
| Deadline.RetrievalNeverOutlives | shared/tce_shared/deadline.py:152-168 | The retrieval budget never exceeds what the turn has left or its own allowance, and with the guard off it is the turn itself. |
| Deadline.DispatchBound | shared/tce_shared/deadline.py:102-119 | A dispatch given a positive slice, at any depth, ends less than a millisecond past the root budget. |
| Deadline.ScheduleBound | shared/tce_shared/deadline.py:102-149 | Any sequence of such dispatches ends, and spends in total, less than a millisecond past the root budget. |
| Deadline.BucketFitsIff | shared/tce_shared/deadline.py:277-288 | The bucketed timeout fits what is left if and only if the gate's 250 ms is left, and wastes less than one bucket. |
| Deadline.GatedBucketFits | shared/tce_shared/deadline.py:115-116 | Gating then bucketing never exceeds what any ancestor has left. |
| EffectJournal.WorkersMoveAtMostTwice | shared/tce_shared/effect_journal.py:149-188 | In any run whatever, ordinary workers make at most two moves on an effect. |
| EffectJournal.ConfirmedIsAbsorbing | shared/tce_shared/effect_journal.py:172-177 | Nothing moves a confirmed effect. |
| EffectJournal.OnlyTheSystemLeavesUnknown | shared/tce_shared/effect_journal.py:179-180 | Leaving unknown or reopening failed takes a system actor, and for one the permitted targets are exactly these. |
| EffectJournal.IrreversibleIsClosedBySystem | shared/tce_shared/effect_journal.py:181-182 | Every step of an irreversible effect into a terminal state was a system actor's. |
| EffectJournal.WorkersCanCloseIff | shared/tce_shared/effect_journal.py:64-70 | Ordinary workers alone can close an effect if and only if it is not declared irreversible, so a command left at its default can be. |
| EffectJournal.ProceedMeansWitnessed | shared/tce_shared/effect_journal.py:195-210 | When nothing pauses, every irreversible effect in a journal of any size is terminal and was last closed by a system actor. |
| EffectJournal.UnresolvedEffects | shared/tce_shared/effect_journal.py:213-239 | The emitting loop gives one row per effect that is not terminal, and no other. |
| EffectJournal.ProceedIffRowsAreReversibleUnknowns | shared/tce_shared/effect_journal.py:195-239 | The pause verdict can be read off the emitted rows: proceed if and only if every row is an unknown and every unknown is reversible. |
| DecisionCapture.FlagMarkerRuns | shared/tce_shared/decision_capture.py:301-315 | The run-length loop flags exactly the lines that stand in a run of two or more marked lines. |
| DecisionCapture.NoRunSurvives | shared/tce_shared/decision_capture.py:301-316 | Lines brought together by the removal are never both marked: one pass leaves no run. |
| DecisionCapture.NegatedAt | shared/tce_shared/decision_capture.py:347-356 | The backward window and its two scans decide whether a negation stands within three tokens without a clause break between. |
| DecisionCapture.MatchAlternatives | shared/tce_shared/decision_capture.py:359-370 | The alternatives mentioned, in order, each negated exactly when no mention of it escapes negation. |
| DecisionCapture.ReadsAsAck | shared/tce_shared/decision_capture.py:463-476 | The cursor loop accepts exactly the one to three words made of acknowledgement words and phrases. |
| DecisionCapture.ExtractCandidates | shared/tce_shared/decision_capture.py:561-685 | The rule cascade, with its loops, returns the candidates its definition gives. |
| CapturePromotion.AnswerIsPromotedIff | shared/tce_shared/decision_capture.py:728-739 | An answer is promoted if and only if it is uncontradicted, not from a transcript, chose something, and names the only open question it could match, unexpired and frozen no later than the answer. |
| CapturePromotion.PromotedIsHuman | shared/tce_shared/decision_capture.py:561-571 | Whatever is extracted and then promoted was human input. |
| CapturePromotion.GateAloneTrustsAnyone | shared/tce_shared/decision_capture.py:700-751 | The gate alone does not ensure it: it promotes an answer whose origin is a program. |
| CapturePromotion.AnswerIsGrounded | shared/tce_shared/decision_capture.py:636-656 | An answer's option is affirmed in the text, or is the one left of two when the other is only denied. |
| CapturePromotion.TheOtherExists | shared/tce_shared/decision_capture.py:652-654 | With one of two alternatives denied there is always another to select. |
| CapturePromotion.OnePromotionPerQuestion | shared/tce_shared/decision_capture.py:636-663 | No two promoted candidates of one message answer the same question, even where question ids repeat. |
| CapturePromotion.PromotedAnswerIsSafe | shared/tce_shared/decision_capture.py:561-751 | End to end: a promoted answer is the human's, targets the only open question it could match, live and asked before it, and its option was offered and stands in the text unless the message was a bare acknowledgement. |
| CapturePromotion.PromotedCorrectionIsGrounded | shared/tce_shared/decision_capture.py:607-634 | Only answers and corrections are promoted, and a promoted correction revises the one resolved question it hits with an alternative the text affirms. |
| CapturePromotion.LiveQuestionOutranksCorrection | shared/tce_shared/decision_capture.py:602-607 | A message that answers an open question is never extracted as a correction. |
| CapturePromotion.AckFlipsIff | shared/tce_shared/decision_capture.py:386-409 | A yes that repeats no alternative picks a denying word if and only if both alternatives deny, and a no a confirming one if and only if both confirm. |
| CapturePromotion.AcksFlip | shared/tce_shared/decision_capture.py:386-409 | A yes that cancels where the alternatives are to cancel and to stop, and a no that continues where they are to proceed and to continue. |
| CapturePromotion.LaterArrivalOnlyDemotes | shared/tce_shared/decision_capture.py:725-734 | A later server time never gets an answer promoted that an earlier one did not. |
| CapturePromotion.AnotherQuestionOnlyDemotes | shared/tce_shared/decision_capture.py:729-736 | One more question under another id never gets a candidate promoted that was not. |
| CapturePromotion.SameIdCanPromote | shared/tce_shared/decision_capture.py:729-736 | The other id matters: a fresh question under the same id in front of a closed one revives the answer. |

## Left out

- SHA-256, HMAC and AES-GCM, redaction, regular expressions, tokenisation and JSON parsing: readings or parameters.
- Floating point and `round`: scores, shares and thresholds are exact reals; a value within a rounding step of a
  threshold may fall on its other side in the program.
- Database stores, compare-and-swap on revisions and pagination: the log, the rows and the questions are given.
- DreamLog.FoldDreamProposal: pass-through fields (ids, session, revision, `now`) are not carried, and theme tokens
  derived from title and first step when the payload has none are left as absent.
- `validate_candidate`, `dedupe_by_content_sha256`, `is_duplicate_theme`, suppression and material change: text policy
  on candidates, with no state.
- Evidence.SimilarityIsUnit: the program rounds the score to six places, so that a score of one may round up from a
  near match there.
- DecisionEngine.Decide: exposure and qualification, the request fingerprint, median evidence age, suggested action,
  the wording of the question and diagnostics are not carried; none of them feeds back into the decision.
- Options, choices and rule statements are taken trimmed and, for options, non-blank, as every caller passes them;
  ids in contradiction lists are taken trimmed.
- FidelityEvaluator.PredictBehavior: the predicted action and the distribution score are not carried; the instant of
  decision and the as-of instant are one, as the evaluator passes them.
- FidelityEvaluator.EvaluateBehaviorFidelity: workflow similarity, the regret proxy, calibration error and drift are
  not carried; they are averages that no gate reads.
- `context_evidence_snapshot` and `advice_names_a_candidate`: small readings of the same parts.
- Failures of the file system inside one step, rotation of the gap file and permissions: each spool operation is
  atomic and the gap log is kept whole.
- CaptureHook.Run: building the request body, the write failure exit and the rate limit on warnings are not carried.
- `RetrievalLedger`, cache keys and the unbounded deadline: records and constants.
- `validate_charter_payload`, `require_charter_for_action`, charter constraints in prose and the codecs: validation and
  wording around the charter that the model takes as given.
- Charter.FoldRaisesIff: a payload is taken to be a mapping, and what its lists hold to convert to text; tier and egress
  are read as the function reads them. The offset of the clock is taken to be that of the stored charter.
- CharterStore.LoadRaisesIff: the choice of the latest approved charter among several is not carried; the row is given,
  and its dates are instants, as the database compares them.
- PermitEndpoint.IssueLoosensIff: lower-casing is a reading, applied to the action kind, the command and the paths as
  the endpoint applies it; the permit record itself, its keyword and expiry, are not carried.
- DecisionCapture.ExtractCandidates: supporting spans, rationales, project and task ids and the extraction version are
  not carried; what remains after quoted, pasted and echoed material is removed is a given text, with only the
  marker-run loop of that removal modelled.
- `is_retrospective`, `resolve_prediction_fields` and `evidence_revision`: single-expression helpers.
