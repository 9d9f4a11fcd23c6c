# TrendForge: numeric engines and the evidence radar, verified in Dafny

The project models six parts of TrendForge and proves what they are for.  Each engine that works by loops over
dictionaries and lists is a method with the same loops; a function states what it computes, and lemmas prove
properties of that function for all inputs.  Pure formulas are functions with lemmas about them.

- **Corporate actions.** Observations of several sources become one action per symbol, class and date
  (`Reconciliation*`, `ReconciledActions`), the actions rewrite a candle history (`PriceAdjustment`), and an audit
  recomputes the factors from the rewritten history (`AdjustmentAudit`).  The main results are that writer and auditor
  agree (`AdjustmentTheorems.RoundTrip`), that a dividend and a rights issue leave the value of a holding as it was
  (`ValueNeutrality`), when an action is reconciled and with which terms (`ReconciliationStates`), what holds over any
  sequence of passes (`AdjustmentRuns`), and the pipeline theorem over all three stages
  (`ReconciledActions.PipelinePasses`).
- **Causal scoring.** Evidence decays, layers are scored and charged for raw inputs they share, candidates are ranked
  within a batch, and gates decide the final state (`Causal*`).  `CausalMeaning` reads the whole result from the
  evidence and the gates, `CausalAging` says how evidence ages.
- **Max pain.** Two implementations, one over dictionaries and one over nested loops, each shown optimal over all real
  settlement prices, and compared with each other (`WriterPayout`, `CommodityMaxPain`, `DerivedMaxPain`,
  `IdleStrikes`, `MaxPainAgreement`, `ChainMeaning`); with the put-call observations built on the second
  (`PcrObservations`, `PcrMeaning`).
- **Weekly positioning.** Rolling statistics of the CFTC series (`WindowStatistics`, `Cftc*`): what every feature
  reports, tight bounds and no look-ahead.
- **Implied volatility.** Bisection over an abstract price (`ImpliedVolatility`).
- **Evidence radar.** The latest-request-wins protocol of the panel script under every interleaving of loads, clicks and
  settlements, and which horizon it ends up showing (`EvidenceRadar`).

`Common`, `Ordering`, `Sums`, `Products` and `Counting` hold the shared sorting, summation and counting facts.
Numbers are `real`; times are numbers, dates are day numbers.  Automatic induction is off
throughout, so every induction is written out.  `dafny verify dfyconfig.toml` checks the project.

## Findings

Where an expected property does not hold of the code as it stands, the exact condition is proved.

- Ingestion is idempotent on histories without adjusted candles, but not always otherwise: an adjusted candle that is
  held back loses its record while its prices stay adjusted, and the next pass may take them for raw prices
  (`AdjustmentTheorems.IdempotentExactly`, `SecondPassCanDiffer`).  On valid candles with positive action terms that
  needs a recorded factor above one, such as a consolidation (`ReconciledActions.IdempotentWithoutConsolidation`).
- Reconciliation ignores the order of its rows up to ties: two different rows of one source with the same, latest
  parse time leave a choice that the order makes, without a conflict being reported
  (`ReconciliationTies.TiedSplitsDependOnOrder`).  The order is irrelevant exactly when all choices give the same
  decision (`ReconciliationOrder.ReconcileIgnoresOrderExactly`), and, when ids tell rows apart, exactly when there is
  no tie (`ReconciliationTies.TiesMatterExactly`).
- A positive item with two raw keys can lower a stage-1 score, where one with a single key cannot as long as its layer
  is uncapped and not over-penalised (`CausalTwoKeys.TwoKeysCanLowerTheScore`, `CausalGain.EvidenceGain`).  It does so
  exactly when the cost of its keys, read from the evidence before the item, exceeds its contribution
  (`CausalGain.EvidencePaysExactly`, and `EvidenceEffect` without any condition on the layers).
- The configurable minimum number of layers has no effect up to its maximum of four, because all four layers must pass
  in any case (`CausalDecisionLaws.ReadyExactly`).
- The two max-pain implementations differ on chains that list a contract twice: the dictionaries keep the later row, the
  loops add both, and the payouts agree exactly when no contract repeats (`MaxPainAgreement.PayoutsAgreeExactly`).
- The loops also search strikes without open interest.  They return one exactly when the chain has no put with open
  interest and its lowest strike is idle (`IdleStrikes.IdleStrikeExactly`, with `MaxPainAgreement.IdleStrikeIsChosen` as
  an example); there the dictionaries return a higher strike (`MaxPainAgreement.IdleLowestDiffers`).
- The two strikes may also differ because the loops take the lowest of equally cheap strikes and the dictionaries the
  one nearest to the underlying (`MaxPainAgreement.EquallyCheapDiffer`); `SameStrikeExactly` says on which chains they
  are the same.
- On a budget of zero passes the bisection raises also for quotes it could price (`ImpliedVolatility.SolverIsTotal`).
- Ingestion accepts stored factors of any sign; negative ones can turn prices or volumes negative
  (`AdjustmentShape.NegativeFactorBreaksGeometry`), exactly when their product does (`GeometryKept`).  Reconciled actions
  carry positive factors only, and `backend/trendforge_api/storage.py:3218-3220` passes nothing else, so such a factor
  reaches the pass only by a direct call.
- The audit sees the recorded factor, not how often a price was scaled.  When a stored history is ingested again while
  an action is disputed, its adjusted candles lose their records; once the dispute is over the next pass adjusts them a
  second time and the audit passes (`AdjustmentRuns.DisputeAppliesASplitTwice`, `ForgottenIsScaledTwice`).  After any
  number of passes an adjusted close is right exactly when the erased records multiply to one
  (`AdjustedCloseIsRightExactly`).
- A factor of exactly zero is treated as one by `or 1.0` in both adjustment passes; the model keeps this.

## Model

| member | source | states |
|---|---|---|
| `PriceAdjustment.ReferenceIndex` | backend/trendforge_api/corporate_actions.py:424-429 | The reference candle is the first of the latest candles dated strictly before the effective date; there is none exactly when no candle precedes it. |
| `PriceAdjustment.ApplyAtIngestion` | backend/trendforge_api/corporate_actions.py:451-516 | The ingestion pass with its dictionary and loops computes `Applied`, the function the adjustment theorems are about, for every candle list and action list. |
| `PriceAdjustment.AccumulateFactors` | backend/trendforge_api/corporate_actions.py:486-492 | The inner loop computes the two products: all factors for prices, those of splits and bonuses for the volume; a zero factor counts as one. |
| `AdjustmentAudit.Assess` | backend/trendforge_api/corporate_actions.py:519-596 | The audit returns the verdict the theorems are about, with the number and event ids of exactly the actions effective after the first candle and up to the last. |
| `AdjustmentAudit.AllRecorded` | backend/trendforge_api/corporate_actions.py:572-588 | The audit loop accepts exactly when every candle records the expected factor within 0.000001. |
| `ValueNeutrality.RightsAreValueNeutral` | backend/trendforge_api/corporate_actions.py:436-447 | On a raw history with one reconciled rights issue of `new` shares for `held` old ones, the close written on the reference candle satisfies `close' * (held + new) == close * held + offer * new`; the volume stays. |
| `ValueNeutrality.DividendTakesItsCash` | backend/trendforge_api/corporate_actions.py:433-435 | With one reconciled dividend the reference candle satisfies `close' + cash == close` if the cash is positive and below the close; otherwise it keeps its numbers and is marked unadjusted. |
| `ValueNeutrality.StoredFactorScales` | backend/trendforge_api/corporate_actions.py:486-505 | One stored factor multiplies every earlier close; a split or bonus keeps close times volume, any other class keeps the volume; a stored zero counts as one. |
| `ValueNeutrality.ActionsCompound` | backend/trendforge_api/corporate_actions.py:470-505 | On a raw history with any list, a candle whose actions are all usable gets the product of the factors each of them gives it as the only action. |
| `ValueNeutrality.EarlierMoveTogether` | backend/trendforge_api/corporate_actions.py:470-505 | All candles before the effective date keep the ratio of their closes, with the same record. |
| `ValueNeutrality.LaterNeedsNothing` | backend/trendforge_api/corporate_actions.py:470-515 | Candles from the effective date on keep prices, volume and factor and are marked not required. |
| `ValueNeutrality.RecordsExactly` | backend/trendforge_api/corporate_actions.py:470-515 | For any list: which of the four records each candle ends with, from the listed actions in force after its date, and that only one of them rewrites prices. |
| `ValueNeutrality.VerdictExactly` | backend/trendforge_api/corporate_actions.py:519-596 | WAIT_DATA_WEAK exactly without candles; REJECT_DATA_INTEGRITY exactly when a required action is unusable or a candle is off its expected product by more than 0.000001. |
| `ValueNeutrality.RequiredInOrder` | backend/trendforge_api/corporate_actions.py:532-543 | The required actions are those not cancelled, price-adjusting, effective after some candle and by another, in list order; event ids follow them. |
| `AdjustmentLaws.AppliedAt` | backend/trendforge_api/corporate_actions.py:470-515 | What the pass writes for any one candle, in the four cases held back / already adjusted / rewritten / not required, as a product over the actions after its date. |
| `AdjustmentLaws.OutcomeRecovers` | backend/trendforge_api/corporate_actions.py:430-432 | After a pass a candle still tells the close it told before if and only if it did not lose the record of a factor other than one; if it did, it tells that close times the lost factor. |
| `AdjustmentLaws.RecomputedFactorsAgree` | backend/trendforge_api/corporate_actions.py:419-448 | Every factor recomputed from the rewritten candles equals the one computed from the raw candles, although the reference close was itself rewritten. |
| `AdjustmentTheorems.RoundTrip` | backend/trendforge_api/corporate_actions.py:451-596 | For any history: the audit of the ingested candles passes if and only if every required action was reconciled and had a factor on the input, and every candle that came in adjusted carried the expected factor. |
| `AdjustmentTheorems.RawRoundTrip` | backend/trendforge_api/corporate_actions.py:451-596 | On a history without adjusted candles the audit passes exactly when every required action was reconciled and had a factor on the raw candles. |
| `AdjustmentTheorems.UnadjustedHistoryIsRejected` | backend/trendforge_api/corporate_actions.py:534-596 | Without ingestion the audit of an unadjusted history passes only if no action was required. |
| `AdjustmentRuns.LaterListPasses` | backend/trendforge_api/storage.py:3425-3442 | A raw history ingested with a resolved list and again with any other list passes the audit of the other list if and only if that list is resolved on the raw candles and, on every candle both lists concern, expects the factor of the first within the tolerance. |
| `AdjustmentRuns.RecordLedger` | backend/trendforge_api/storage.py:3425-3442 | After any sequence of passes with any lists a candle tells its first close times the product of the records the passes erased; it is unchanged if and only if that product is one. |
| `AdjustmentRuns.AdjustedCloseIsRightExactly` | backend/trendforge_api/storage.py:3425-3442 | After any sequence of passes over a raw candle an adjusted close is the raw close times the recorded factor if and only if the erased records multiply to one. |
| `AdjustmentRuns.ForgottenIsScaledTwice` | backend/trendforge_api/corporate_actions.py:479-505 | Ingested with a resolved list, with one that holds everything back, and with any third: the audit passes exactly when the third is resolved on the forgotten history, and then the closes carry the factors of both the first and the third list. |
| `AdjustmentRuns.DisputeAppliesASplitTwice` | backend/trendforge_api/corporate_actions.py:479-505 | A split ingested, again while a bonus of the day is in conflict, and again after its cancellation: every valid raw history of two candles around that day ends with a quarter of the close instead of a half, and passes the audit. |
| `AdjustmentTheorems.IdempotentExactly` | backend/trendforge_api/corporate_actions.py:451-516 | A second pass with the same actions changes nothing if and only if every candle the first pass held back still meets an unusable action once its own adjustment record is erased. |
| `AdjustmentTheorems.RawIdempotent` | backend/trendforge_api/corporate_actions.py:451-516 | On a history without adjusted candles the pass is idempotent. |
| `ReconciledActions.IdempotentWithoutConsolidation` | backend/trendforge_api/corporate_actions.py:451-516 | On valid candles with positive action terms the pass is idempotent unless a candle came in with a recorded factor above one. |
| `AdjustmentTheorems.SecondPassCanDiffer` | backend/trendforge_api/corporate_actions.py:479-485 | A two-candle history with an adjusted candle and one dividend on which the second pass does change the candles. |
| `AdjustmentShape.FactorChain` | backend/trendforge_api/corporate_actions.py:486-505 | The factor written on an earlier candle is the factor on a later one times the factors of the actions in between, also across the boundary where nothing is required. |
| `AdjustmentShape.Turnover` | backend/trendforge_api/corporate_actions.py:486-505 | Close times volume is unchanged under splits and bonuses and otherwise scaled by exactly the factors of the other actions. |
| `AdjustmentShape.PriceRatiosKept` | backend/trendforge_api/corporate_actions.py:470-515 | Whatever the pass does to a candle, open, high and low keep their ratio to the close. |
| `AdjustmentShape.DependsOnLaterActions` | backend/trendforge_api/corporate_actions.py:470-515 | What is written for a candle depends only on the actions effective after its date. |
| `AdjustmentShape.NewActionIsLocal` | backend/trendforge_api/corporate_actions.py:470-515 | Adding an action anywhere in the list changes no price, volume or factor from its effective date on. |
| `AdjustmentShape.GeometryKept` | backend/trendforge_api/models.py:254-268 | The pass keeps length, order and dates; valid candles (`0 < low <= open, close <= high`) stay valid if and only if the factors multiply to positive numbers on every candle it rewrites, a candle without volume needing this of its prices only. |
| `AdjustmentShape.PositiveFactorsKeepGeometry` | backend/trendforge_api/corporate_actions.py:486-505 | Positive stored factors are enough for that; computed factors always are positive. |
| `AdjustmentShape.NegativeFactorBreaksGeometry` | backend/trendforge_api/corporate_actions.py:422-505 | A reconciled merger with stored factor -1 makes every valid raw history of two candles around its date invalid. |
| `Reconciliation.ReconcileCorporateActions` | backend/trendforge_api/corporate_actions.py:143-399 | The reconciliation loops over the grouping and latest-row dictionaries compute `Reconcile`: one action for each key in ascending key order. |
| `Reconciliation.SelectLatest` | backend/trendforge_api/corporate_actions.py:176-190 | The insertion-ordered dictionary of the latest row of each source, a later or equally late row winning. |
| `ReconciliationStates.ReconciledExactly` | backend/trendforge_api/corporate_actions.py:143-399 | Every action of the result is decided from the newest row of each source that counts for its key (parsed by the cutoff, with symbol, class and date; of equal times the row listed last), in order of appearance; its event ids and source count are those of these rows, and its state, terms and factor follow from them as the next three rows say. |
| `ReconciliationStates.StateExactly` | backend/trendforge_api/corporate_actions.py:199-378 | Reconciled if and only if no selected row cancels, no two state a term differently, and they state what the class needs: a ratio (split, bonus), cash (dividend), ratio and offer (rights), factor with confirmed continuity of the same symbol on both sides (merger, demerger), nothing (other); waiting for details when only the last part fails; cancelled and conflict likewise exact. |
| `ReconciliationStates.TermsExactly` | backend/trendforge_api/corporate_actions.py:226-318 | Each carried term is the one the selected rows agree on, numerator before denominator, and absent when none states it or two differ; after a cancellation there are none. |
| `ReconciliationStates.FactorExactly` | backend/trendforge_api/corporate_actions.py:319-378 | A factor is stored exactly for reconciled splits, bonuses, mergers and demergers: it times the new share count is the old one, or it is the stated factor. |
| `ReconciliationStates.ActionExistsExactly` | backend/trendforge_api/corporate_actions.py:150-175 | There is an action for a key exactly when some row counts for it. |
| `ReconciliationStates.ListIsAscending` | backend/trendforge_api/corporate_actions.py:175 | The actions ascend by symbol, then class name, then date, each key once. |
| `ReconciliationLaws.LatestCovers` | backend/trendforge_api/corporate_actions.py:176-190 | The selection holds one row for each source, all taken from the input, none older than any row of its source. |
| `ReconciliationLaws.SelectionIgnoresOrderExactly` | backend/trendforge_api/corporate_actions.py:176-190 | Every ordering of the rows selects the same rows if and only if no two different rows of one source tie for the latest parse time. |
| `ReconciliationLaws.ReconcileIgnoresOrder` | backend/trendforge_api/corporate_actions.py:143-399 | Without such ties the result depends on the set of rows only: permuting or repeating rows changes no action, state, factor or term, only the order of source event ids. |
| `ReconciliationOrder.ReconcileIgnoresOrderExactly` | backend/trendforge_api/corporate_actions.py:143-399 | Every order of the rows gives the same actions, up to the order of source event ids, if and only if in every group every choice of one newest row for each source gives the same decision; the same with the ids left out of the comparison. |
| `ReconciliationTies.TiesMatterExactly` | backend/trendforge_api/corporate_actions.py:143-399 | When ids tell rows apart, every order gives the same actions if and only if no two different rows of one action and source tie for the latest parse time. |
| `ReconciliationOrder.ActionIgnoresOrderExactly` | backend/trendforge_api/corporate_actions.py:175-399 | The same for the action of one group, and for any comparison of actions that ignores the order of ids. |
| `ReconciliationTies.TiedSplitsDependOnOrder` | backend/trendforge_api/corporate_actions.py:186-189 | Two tied rows of one source with split ratios 2:1 and 5:1: both orders report RECONCILED, with factor 0.2 in one and 0.5 in the other. |
| `ReconciliationLaws.UnadmittedRowIsInvisible` | backend/trendforge_api/corporate_actions.py:150-172 | A row parsed after the cutoff, or without parse time, symbol or date, influences nothing. |
| `ReconciliationOutcome.CancelledOrConflictExactly` | backend/trendforge_api/corporate_actions.py:199-318 | Cancelled exactly when all selected sources cancel; in conflict exactly when only some cancel, or none does and two of them state a term differently. |
| `ReconciliationOutcome.ReconstructionIsAuthorised` | backend/trendforge_api/corporate_actions.py:319-378 | A merger or demerger is reconciled only on an explicit factor and confirmed continuity of the same symbol; no selected row says otherwise. |
| `ReconciliationOutcome.FactorMatchesTerms` | backend/trendforge_api/corporate_actions.py:96-110 | The stored factor of a reconciled split or bonus is the ratio of old to new share count of the stored terms. |
| `ReconciledActions.ReconcileKeys` | backend/trendforge_api/corporate_actions.py:319-399 | Reconciled actions carry complete, positive terms; keys identify actions; nothing the adjustment divides by is zero. |
| `ReconciledActions.ReconciledMeansUsable` | backend/trendforge_api/corporate_actions.py:319-378 | On valid candles a reconciled price-adjusting action has a factor exactly when it stores one or a preceding close exists that exceeds any dividend; factors are positive, those of bonuses and dividends below one. |
| `ReconciledActions.PipelinePasses` | backend/trendforge_api/corporate_actions.py:143-596 | Reconcile, ingest, audit: for any rows and any valid unadjusted history the output is valid and the audit passes exactly when every action inside the history was reconciled and every dividend among them is below the close it is measured against. |
| `CausalEvidence.WeightBounds` | backend/trendforge_api/causal_engine.py:269-310 | The decay weight lies between zero and the initial weight; it is zero exactly for evidence from the future and at most 0.4 for stale evidence. |
| `CausalEvidence.WeightFallsWithAge` | backend/trendforge_api/causal_engine.py:269-310 | Evidence once admitted never gains weight as time goes on, also across the step to stale, and never becomes future evidence. |
| `CausalEvidence.AdjustedBounds` | backend/trendforge_api/causal_engine.py:269-310 | Decay never flips the sign of a contribution and never enlarges it. |
| `CausalAging.AgeingFactor` | backend/trendforge_api/causal_engine.py:269-310 | For an exponential decay the weight is multiplied, over any span without expiry, by the decay of that span at the daily rate of the item, whatever its age at the start. |
| `CausalAging.KnownWeight` | backend/trendforge_api/causal_engine.py:269-291 | The weight of known evidence, with the rates 0.15, 0.04, 0.07 and 0.02, the starting weights 0.4 and 1, and the cap of 0.4 after expiry. |
| `CausalScoring.BuildStrongest` | backend/trendforge_api/causal_engine.py:317-327 | The table built by the nested loops holds the strongest positive contribution for every layer and key. |
| `CausalScoring.IndependencePenalties` | backend/trendforge_api/causal_engine.py:313-352 | The penalty loops list the penalties of the six pairs in key order and charge each layer half of every penalty that names it. |
| `CausalScoring.ScoreCandidate` | backend/trendforge_api/causal_engine.py:355-397 | The scoring loops compute the layer scores, penalties and stage-1 score that the causal theorems are about. |
| `CausalLaws.ScoreBounds` | backend/trendforge_api/causal_engine.py:367-382 | A layer score stays between zero and its cap and is the clamped raw score less the clamped penalty. |
| `CausalLaws.PenaltiesConserved` | backend/trendforge_api/causal_engine.py:329-352 | Before clamping, the charges of the four layers sum to the listed penalty amounts. |
| `CausalLaws.Stage1Bounds` | backend/trendforge_api/causal_engine.py:367-387 | Every layer score lies within its cap and the stage-1 score within 0 and 28, for any evidence and any decay. |
| `CausalLaws.StrongestIsMaximum` | backend/trendforge_api/causal_engine.py:317-327 | The table entry is the maximum of the contributions that name the key, and is attained. |
| `CausalLaws.LayerPenaltyIs` | backend/trendforge_api/causal_engine.py:329-352 | The penalty of a layer is, key by key, 0.15 of what it shares with each of the three other layers. |
| `CausalMeaning.PenaltiesExactly` | backend/trendforge_api/causal_engine.py:313-352 | A penalty is listed if and only if positive items of two layers name its key; its amount is three tenths of the smaller of the two strongest. |
| `CausalMeaning.EachPenaltyOnce` | backend/trendforge_api/causal_engine.py:329-352 | No penalty is listed twice. |
| `CausalLaws.ScoringIgnoresOrder` | backend/trendforge_api/causal_engine.py:313-397 | Permuting the evidence changes no listed penalty, no layer score and no total. |
| `CausalKeyCost.SingleKeyBound` | backend/trendforge_api/causal_engine.py:329-352 | One raw key costs a layer at most 0.45 of the strongest contribution of that layer for the key. |
| `CausalGain.EvidenceEffect` | backend/trendforge_api/causal_engine.py:313-397 | The exact effect of one more positive item, wherever it stands and whatever the layers are at: its layer is rescored, every other layer loses the growth of its charge as far as it has something to lose; the score does not fall if and only if the own gain covers these losses, all read from the evidence before the item. |
| `CausalGain.EvidencePaysExactly` | backend/trendforge_api/causal_engine.py:313-397 | In a layer with room the item raises the score by its contribution less the cost of its keys, and does not lower it if and only if that cost is at most the contribution. |
| `CausalGain.EvidenceGain` | backend/trendforge_api/causal_engine.py:313-397 | In particular the item brings at least its contribution less 0.9 of it for each distinct raw key: all of it without keys, at least a tenth with one key. |
| `CausalTwoKeys.TwoKeysCanLowerTheScore` | backend/trendforge_api/causal_engine.py:269-397 | For every decay, one more positive item with two raw keys lowers the stage-1 score of a candidate's draft by exactly 0.8. |
| `CausalTwoKeys.EvidenceIsAccepted` | backend/trendforge_api/causal_engine.py:92-171 | That candidate's evidence, with and without the item, has unique ids and keeps the bounds of the input model. |
| `CausalTwoKeys.DecayCountsInFull` | backend/trendforge_api/causal_engine.py:269-310 | For every decay, evidence of age zero without a decay rate counts for exactly its contribution. |
| `CausalTwoKeys.ExtraCost` | backend/trendforge_api/causal_engine.py:313-397 | The layer of the item is neither over-penalised nor capped with it, and its keys cost the four layers 1.8 together where it brings one. |
| `CausalDecision.EvaluateCausalBatch` | backend/trendforge_api/causal_engine.py:561-571 | The batch is refused exactly when two symbols agree up to case; otherwise every candidate, in order, gets the result of its draft ranked within the batch. |
| `CausalDecision.RankDrafts` | backend/trendforge_api/causal_engine.py:400-407 | The percentile dictionary gives every draft the share of the batch that does not score higher. |
| `CausalDecision.PercentileExactly` | backend/trendforge_api/causal_engine.py:400-407 | The percentile of a score is 100 less the share of the drafts that score strictly higher, counted as a set. |
| `CausalDecision.RankExactly` | backend/trendforge_api/causal_engine.py:400-407 | The same for the results of a batch: `(100 - percentile) * n` is 100 times the number of results with a higher score. |
| `CausalMeaning.ResultExactly` | backend/trendforge_api/causal_engine.py:355-558 | The whole result of a candidate: four layer scores from the items and penalties of each layer with caps and minima as numbers, their total, both labels, the stage-2 score and every final state, each if and only if its conditions on evidence, gates and execution hold. |
| `CausalMeaning.RefusedExactly` | backend/trendforge_api/causal_engine.py:561-567 | Symbols count as equal exactly when they differ at most in the case of ASCII letters. |
| `CausalDecisionLaws.ReadyExactly` | backend/trendforge_api/causal_engine.py:423-558 | READY holds if and only if every gate, point-in-time, trust, total, layer, percentile, trigger and execution-score condition holds; the minimum number of layers is implied by the others. |
| `CausalDecisionLaws.FirstImposedIs` | backend/trendforge_api/causal_engine.py:410-420 | The override is the first of the prioritised states that some gate names, and absent exactly when none is named. |
| `CausalDecisionLaws.OverrideOnlyEscalates` | backend/trendforge_api/causal_engine.py:410-420 | More gates can only impose a state at least as severe. |
| `CausalDecisionLaws.OverrideDecides` | backend/trendforge_api/causal_engine.py:410-558 | A prioritised state named by any gate is the final state, the most severe one if several are named. |
| `CausalDecisionLaws.GatesNeverUnlockReady` | backend/trendforge_api/causal_engine.py:410-571 | No additional gate of a candidate, even one that names READY, makes it READY. |
| `CausalDecisionLaws.NonInterference` | backend/trendforge_api/causal_engine.py:400-571 | Gates, execution result and mode of one candidate change nothing in the result of any other. |
| `CausalDecisionLaws.CandidateOrderIrrelevant` | backend/trendforge_api/causal_engine.py:400-571 | Permuting the candidates changes no result. |
| `CausalDecisionLaws.EvidenceOrderIrrelevant` | backend/trendforge_api/causal_engine.py:355-571 | Permuting the evidence of one candidate changes no result of the batch. |
| `CausalDecisionLaws.FutureEvidence` | backend/trendforge_api/causal_engine.py:355-558 | Evidence after the cutoff moves no layer score, yet its presence alone keeps the candidate from READY. |
| `CausalDecisionLaws.PercentileMonotone` | backend/trendforge_api/causal_engine.py:400-407 | A higher score never has a lower percentile, and the best score has 100. |
| `CausalDecisionLaws.PercentileCountingBound` | backend/trendforge_api/causal_engine.py:400-407 | At most `p` percent of a batch falls strictly below percentile `p`, and fewer unless nobody does. |
| `WriterPayout.PayoutIsLinear` | backend/trendforge_api/commodity_context.py:260-269 | The payout is linear between neighbouring strikes. |
| `WriterPayout.MinimumIsAtAStrike` | backend/trendforge_api/commodity_context.py:245-272 | For every settlement price, below, between or above the strikes, some listed strike costs the writers no more. |
| `CommodityMaxPain.MaxPainIsOptimal` | backend/trendforge_api/commodity_context.py:245-272 | The strike returned minimises the payout over all real settlement prices; among listed strikes of equal payout it is the nearest to the anchor, then the lowest; there is none exactly when nothing has open interest. |
| `ChainMeaning.BookExactly` | backend/trendforge_api/commodity_context.py:246-255 | The dictionaries hold exactly the last row with open interest of each type and strike, each once. |
| `ChainMeaning.DictionariesChoose` | backend/trendforge_api/commodity_context.py:245-272 | The strike returned is the cheapest over all prices and nearest to the anchor, where the anchor is the underlying or, without one, the strike that half of the strikes lie below. |
| `DerivedMaxPain.PainAtCandidate` | backend/trendforge_api/derived_market_outputs.py:240-252 | The inner loop with its skipped rows computes the payout of the contracts at one candidate strike. |
| `DerivedMaxPain.MaxPainByLoops` | backend/trendforge_api/derived_market_outputs.py:234-257 | The nested loops return the lowest payout-minimising listed strike, which is also optimal over all real settlement prices; there is none exactly when no strike is positive. |
| `ChainMeaning.LoopsChoose` | backend/trendforge_api/derived_market_outputs.py:234-257 | Read from the raw rows alone: the lowest listed strike of least total pain, which no price undercuts. |
| `MaxPainAgreement.PayoutsAgreeExactly` | backend/trendforge_api/commodity_context.py:245-269 | The dictionary payout and the added-up payout coincide at all prices if and only if no contract with open interest is listed twice. |
| `MaxPainAgreement.ImplementationsAgree` | backend/trendforge_api/derived_market_outputs.py:234-257 | With positive strikes, one row per contract and some open interest both implementations return strikes of equal payout, the loops the lower or the same one. |
| `MaxPainAgreement.SameStrikeExactly` | backend/trendforge_api/commodity_context.py:256-272 | On such a chain the two strikes are the same if and only if some strike of the book is the lowest of the cheapest listed strikes, idle ones included, and as near to the anchor as every equally cheap strike of the book. |
| `MaxPainAgreement.EquallyCheapDiffer` | backend/trendforge_api/commodity_context.py:271-272 | A common chain of a put below a call on which both strikes cost nothing, the loops take the lower and the dictionaries the one at the underlying. |
| `IdleStrikes.IdleStrikeExactly` | backend/trendforge_api/derived_market_outputs.py:235-257 | For any raw rows: no contract with open interest is struck at the strike the loops return if and only if no put has open interest and the lowest listed strike is idle. |
| `MaxPainAgreement.IdleLowestDiffers` | backend/trendforge_api/derived_market_outputs.py:235-257 | On a common chain of calls whose lowest strike is idle the loops return a strictly lower strike than the dictionaries. |
| `MaxPainAgreement.IdleStrikeIsChosen` | backend/trendforge_api/derived_market_outputs.py:234-257 | A chain on which the loops return a strike without open interest and the dictionaries do not. |
| `PcrObservations.BuildObservations` | backend/trendforge_api/derived_market_outputs.py:260-315 | Every group with open interest gets exactly one observation, in key order, with its totals, ratio and optimal strike; the rejected count is the number of rows no observation covers. |
| `PcrObservations.RejectionsAddUp` | backend/trendforge_api/derived_market_outputs.py:266-292 | Counting unreadable rows and the rows of idle groups counts every uncovered row exactly once. |
| `PcrMeaning.ObservationsExactly` | backend/trendforge_api/derived_market_outputs.py:275-305 | One observation for every key with call or put interest and no other, in ascending key order, with the sums over the rows of that key, their quotient, and its lowest cheapest strike. |
| `PcrMeaning.InterestIsConserved` | backend/trendforge_api/derived_market_outputs.py:266-291 | Over a snapshot the observed call totals, and the put totals, add up to the open interest of all readable rows. |
| `PcrMeaning.RejectedExactly` | backend/trendforge_api/derived_market_outputs.py:264-292 | The rejected count is the number of rows that are unreadable or whose key has no open interest. |
| `WindowStatistics.ZscoreBound` | backend/trendforge_api/cftc_analytics.py:72-77 | In every full window of size `n` the squared z-score of the latest value is at most `n - 1`. |
| `WindowStatistics.ZscoreBoundIsReached` | backend/trendforge_api/cftc_analytics.py:72-77 | For every `n` above one some window reaches that bound. |
| `WindowStatistics.PercentileBounds` | backend/trendforge_api/cftc_analytics.py:80-84 | The percentile lies between `1/n` and 1; it is 1 exactly when the latest value is the highest of the window, and then the z-score is not negative. |
| `CftcFeatures.BuildFeatureHistory` | backend/trendforge_api/cftc_analytics.py:195-215 | The nested dictionaries and loops compute `FeatureHistory`: a feature for every prefix of every series, the last row of a date winning, sorted stably. |
| `CftcFeatures.OrderedRows` | backend/trendforge_api/cftc_analytics.py:211-212 | Sorting the dates of the inner dictionary yields exactly the date-ordered series. |
| `CftcFeatureMeaning.RowExactly` | backend/trendforge_api/cftc_analytics.py:134-192 | Every field of a feature from the rows it ends: changes, means, z-scores (sign and square), percentiles (as a number of rows), position state, crowding and price divergence, each value if and only if its condition holds. |
| `CftcFeatureMeaning.ChangesAddUp` | backend/trendforge_api/cftc_analytics.py:134-159 | Over the features of a series the reported weekly changes lead from the first position to the last, for managed money, open interest, commercials and swap dealers. |
| `CftcHistoryMeaning.SeriesExactly` | backend/trendforge_api/cftc_analytics.py:40-60 | A series holds exactly the positions stated by the last raw row of each date for its code, or its market without one, up to the cutoff. |
| `CftcHistoryMeaning.FeatureExactly` | backend/trendforge_api/cftc_analytics.py:195-215 | Every feature of a history describes, in the sense of `RowExactly`, the positions that count for one key up to the date of the feature. |
| `CftcHistoryMeaning.EveryPositionHasFeature` | backend/trendforge_api/cftc_analytics.py:195-215 | Every position that counts is the current position of a feature. |
| `CftcHistoryMeaning.EachFeatureOnce` | backend/trendforge_api/cftc_analytics.py:195-215 | No feature is listed twice. |
| `CftcHistoryMeaning.SortIsStable` | backend/trendforge_api/cftc_analytics.py:215 | Features of one date and market keep the order in which they were built. |
| `CftcNoLookAhead.HistoryWithCutoff` | backend/trendforge_api/cftc_analytics.py:201-208 | The series built with a cutoff is the full series up to the cutoff, repeated dates included. |
| `CftcNoLookAhead.NoLookAhead` | backend/trendforge_api/cftc_analytics.py:134-215 | Building with a cutoff gives the same multiset of features as building without and keeping those dated at or before it. |
| `CftcNoLookAhead.ResultIsSorted` | backend/trendforge_api/cftc_analytics.py:215 | The result is in ascending order of date and market. |
| `CftcFeatureBounds.EveryFeatureInRange` | backend/trendforge_api/cftc_analytics.py:134-192 | Every feature of every history keeps the z-score and percentile ranges of its windows; all four means, all four z-scores and both percentiles are reported exactly when their windows are full, changes exactly from the second row on. |
| `CftcFeatureBounds.FeatureForgetsThePast` | backend/trendforge_api/cftc_analytics.py:134-192 | Two series that end in the same 260 rows end in the same feature, the observation count aside. |
| `ImpliedVolatility.Solver` | backend/trendforge_api/derivatives_engine.py:143-187 | The solver with its loop computes `Solve`; whatever the price function, a returned volatility lies inside the bracket and is priced within tolerance. |
| `ImpliedVolatility.BracketKept` | backend/trendforge_api/derivatives_engine.py:169-186 | Every pass halves the bracket, stays inside the previous one and keeps a bracketed target bracketed. |
| `ImpliedVolatility.FirstAcceptedMidpoint` | backend/trendforge_api/derivatives_engine.py:169-187 | The answer is the midpoint of the first pass priced within tolerance; the loop raises exactly when no pass of the budget is. |
| `ImpliedVolatility.FailuresExactly` | backend/trendforge_api/derivatives_engine.py:143-187 | Each of the three errors, and success, if and only if: an input is not positive; the price is outside the no-arbitrage bounds, spelled out for calls and puts; no midpoint between 0.000001 and 5 is accepted. |
| `ImpliedVolatility.ParityKeepsBounds` | backend/trendforge_api/derivatives_engine.py:158-167 | A call quote is within its bounds exactly when the put quote that put-call parity gives is within its own. |
| `ImpliedVolatility.SolverIsTotal` | backend/trendforge_api/derivatives_engine.py:143-187 | For a monotone `K`-Lipschitz price, a target between the prices at the ends and `K * (5 - 1e-6) / 2^n` within tolerance, the solver returns an accurate volatility, except on a budget of no passes, where it always raises. |
| `ImpliedVolatility.SolverRejectsUnreachable` | backend/trendforge_api/derivatives_engine.py:143-187 | A target beyond the end prices by more than the tolerance is never found, whatever the budget. |
| `ImpliedVolatility.MorePassesKeepTheAnswer` | backend/trendforge_api/derivatives_engine.py:170-187 | A larger budget never loses or changes an answer. |
| `EvidenceRadar.Script.constructor` | frontend/evidence-radar.js:5-6 | The script starts in the first state of every run, with one load in flight. |
| `EvidenceRadar.Script.BeginLoad` | frontend/evidence-radar.js:146-150 | The part of a load before its `await` is the load step: a new generation, a request for the selected horizon. |
| `EvidenceRadar.Script.ClickTab` | frontend/evidence-radar.js:104-109 | A click selects the horizon and its tab, then starts a load. |
| `EvidenceRadar.Script.EndLoad` | frontend/evidence-radar.js:151-162 | The part after the `await` is the settlement step for all three outcomes: a request that is not the newest changes nothing visible. |
| `EvidenceRadar.RunKeepsInvariant` | frontend/evidence-radar.js:5-163 | In every interleaving each generation belongs to one request, in flight or settled; the newest is for the selected horizon; the panel shows a settled request, drawn for its own horizon. |
| `EvidenceRadar.PaintedNeverDecreases` | frontend/evidence-radar.js:146-163 | The generation on the panel never decreases. |
| `EvidenceRadar.RepaintIsCurrent` | frontend/evidence-radar.js:94-163 | A repaint is by the newest request, fetched and drawn for the horizon selected at that moment. |
| `EvidenceRadar.StaleSettlementIsInvisible` | frontend/evidence-radar.js:146-163 | The settlement of a request that is not the newest changes neither panel nor tabs nor selection. |
| `EvidenceRadar.QuiescentShowsNewest` | frontend/evidence-radar.js:146-163 | Once nothing is in flight the panel shows how the newest load ended, for the selected horizon. |
| `EvidenceRadar.QuiescentPanelIsDetermined` | frontend/evidence-radar.js:146-163 | How and in which order the older requests settled leaves no trace on a quiescent panel. |
| `EvidenceRadar.NewestIsPainted` | frontend/evidence-radar.js:146-163 | When the newest request settles it is painted, whatever settled before it. |
| `EvidenceRadar.ClickSelects` | frontend/evidence-radar.js:104-109 | After a click on a tab that is there, the selection and the tab are its horizon and the newest request in flight is for it. |
| `EvidenceRadar.LoadKeepsSelection` | frontend/evidence-radar.js:146-150 | A reload keeps the selection and adds one request for it. |
| `EvidenceRadar.TabsThereExactly` | frontend/evidence-radar.js:94-112 | The tabs are there exactly once the panel has shown a radar payload. |
| `EvidenceRadar.SelectionIsLastChosen` | frontend/evidence-radar.js:5-112 | After any run the horizon is that of the last click on a tab that was there, or ALL if there was none. |
| `EvidenceRadar.QuiescentPanelIsLastChosen` | frontend/evidence-radar.js:94-163 | Once nothing is in flight the panel was fetched and drawn for the horizon chosen last. |
| `EvidenceRadar.GenerationsAreLoads` | frontend/evidence-radar.js:104-150 | The newest generation is one more than the number of reloads and clicks. |

## Left out

- Rounding and floating-point error: prices, factors, scores and percentiles are exact; NaN and infinite inputs and the finiteness checks on them are not modelled.
- Parsing of dates, numbers, booleans, symbols and action names, and the normalisation of raw input keys: rows carry the parsed values, with `None` for what does not parse.  Candles without a time zone, which the source refuses, do not occur.
- The action key is the triple of symbol, class and date; the source sorts by the triple too and formats it into one string for the output.
- Source names, labels, reasons and explanation texts, the symbol, timeframe and source of an audit result, cause types and sponsor actors, evidence lineage, and the constant `executable` flag.
- `exp`, the square root and the Black-Scholes price are function parameters; the lemmas state what they use of them (a decay that starts at one, stays positive and never rises, and for `CausalAging.AgeingFactor` turns sums into products; a root; a monotone Lipschitz price).  The Greeks are left out.
- Re-ingestion: a run takes the same candles with any lists of actions; that `storage.py` admits only rows parsed by the last candle (`backend/trendforge_api/storage.py:3165-3171`) and keeps revisions of changed candles is not modelled.
- Divisions by zero: the adjustment theorems ask for candles with non-zero close and factor, which the candle model guarantees, and for actions with distinct keys whose ratio terms do not cancel, which is proved of every reconciled list (`ReconciledActions.ReconcileKeys`).
- CftcNoLookAhead.NoLookAhead: compares multisets, because the order of contracts that share a market name and a date follows their first appearance among the kept rows.
- EvidenceRadar.RepaintIsCurrent: covers what a repaint draws; an exception thrown while drawing, missing page elements and the coverage strip are not modelled.
- The Unicode part of case folding of symbols: the symbol pattern admits ASCII only.
- Storage, archives, network access, scheduling and the command line.
- Industry peer groups, fundamental ratios, option Greeks rows and the risk-free-rate selection: one-branch formulas without a property across functions.
- The other front-end scripts; `m-factor-live.js` follows a protocol with further awaits that is not part of this model.
