/** Drafts, percentile ranks, gates and the final state (`_draft`, `_percentiles`, `_gate_override`, `_finalize`). */
module CausalDecision {
  import opened Common
  import opened Counting
  import opened Products
  import opened CausalEvidence
  import opened CausalScoring

  datatype GateOutcome = GatePass | SoftFail | HardFail | GateWait | GateStale

  datatype FinalState =
    | PriorityRadar | Ready | Wait | WaitFomo | WaitDataWeak | WaitMtfConflict | WaitEmotionalRisk
    | Reject | ShortWatch | NoTrade | LockedNoTrade | StopTradingNow

  datatype Stage1Label = Eligible | Ineligible | WaitLabel | StaleLabel | HardFailLabel

  datatype Stage2Label = Blocked | NotRun | WaitTrigger | Weak | Confirmed

  datatype Gate = Gate(outcome: GateOutcome, overrideState: Option<FinalState>)

  datatype Execution = Execution(score: real, triggerActive: bool, gates: seq<Gate>)

  datatype Mode = Production | Demo

  datatype Candidate = Candidate(
    symbol: string,
    asOf: real,
    evidence: seq<Evidence>,
    gates: seq<Gate>,
    execution: Option<Execution>,
    mode: Mode)

  datatype Request = Request(
    candidates: seq<Candidate>,
    minimumTotal: real,
    minimumLayers: int,
    minimumPercentile: real)

  datatype Draft = Draft(
    candidate: Candidate,
    stage1Score: real,
    layerScores: seq<LayerScore>,
    penalties: seq<Penalty>,
    pointInTimeFailure: bool,
    unofficialEvidence: bool)

  datatype Result = Result(
    symbol: string,
    stage1Label: Stage1Label,
    stage1Score: real,
    stage2Label: Stage2Label,
    stage2Score: Option<real>,
    percentile: real,
    layerScores: seq<LayerScore>,
    passingLayers: int,
    penalties: seq<Penalty>,
    finalState: FinalState)

  // ---------- drafts ----------

  function ScorerAt(asOf: real, decay: real -> real): Scorer {
    (e: Evidence) => Adjusted(e, asOf, decay)
  }

  predicate UniqueIds(evidence: seq<Evidence>) {
    forall i, j :: 0 <= i < j < |evidence| ==> evidence[i].id != evidence[j].id
  }

  predicate FromFuture(evidence: seq<Evidence>, asOf: real) {
    exists e :: e in evidence && FreshnessOf(e, asOf) == Future
  }

  predicate RestsOnUnofficial(evidence: seq<Evidence>, asOf: real, decay: real -> real) {
    exists e :: e in evidence && 0.0 < Adjusted(e, asOf, decay) && Unofficial(e.trust)
  }

  function DraftOf(c: Candidate, decay: real -> real): Draft {
    var score := ScorerAt(c.asOf, decay);
    Draft(c, Stage1Score(c.evidence, score), LayerScores(c.evidence, score), Penalties(c.evidence, score),
          FromFuture(c.evidence, c.asOf), RestsOnUnofficial(c.evidence, c.asOf, decay))
  }

  method MakeDraft(c: Candidate, decay: real -> real) returns (draft: Draft)
    requires UniqueIds(c.evidence)
    ensures draft == DraftOf(c, decay)
  {
    var layerScores, penalties, total := ScoreCandidate(c.evidence, ScorerAt(c.asOf, decay));
    draft := Draft(c, total, layerScores, penalties, FromFuture(c.evidence, c.asOf),
                   RestsOnUnofficial(c.evidence, c.asOf, decay));
  }

  // ---------- percentiles ----------

  function Percentile(scores: seq<real>, s: real): real
    requires scores != []
  {
    Quotient(100.0 * (CountAtMost(scores, s) as real), |scores| as real)
  }

  function ScoresOf(drafts: seq<Draft>): (r: seq<real>)
    ensures |r| == |drafts|
  {
    if drafts == [] then []
    else ScoresOf(drafts[..|drafts| - 1]) + [drafts[|drafts| - 1].stage1Score]
  }

  // ---------- gates ----------

  /** Override states that gates can impose, most severe first; other override states are ignored. */
  const PRIORITY: seq<FinalState> :=
    [StopTradingNow, LockedNoTrade, NoTrade, WaitEmotionalRisk, WaitFomo, WaitMtfConflict]

  predicate Imposes(gates: seq<Gate>, state: FinalState) {
    exists g :: g in gates && g.overrideState == Some(state)
  }

  function FirstImposed(gates: seq<Gate>, states: seq<FinalState>): Option<FinalState> {
    if states == [] then None
    else if Imposes(gates, states[0]) then Some(states[0])
    else FirstImposed(gates, states[1..])
  }

  function GateOverride(gates: seq<Gate>): Option<FinalState> {
    FirstImposed(gates, PRIORITY)
  }

  predicate AnyOutcome(gates: seq<Gate>, outcome: GateOutcome) {
    exists g :: g in gates && g.outcome == outcome
  }

  function AllGates(c: Candidate): seq<Gate> {
    c.gates + if c.execution.Some? then c.execution.value.gates else []
  }

  // ---------- the decision ----------

  function PassingLayers(layerScores: seq<LayerScore>): int {
    if layerScores == [] then 0
    else PassingLayers(layerScores[..|layerScores| - 1]) + if layerScores[|layerScores| - 1].passed then 1 else 0
  }

  predicate AllPassed(layerScores: seq<LayerScore>) {
    forall i :: 0 <= i < |layerScores| ==> layerScores[i].passed
  }

  predicate NumericallyEligible(draft: Draft, percentile: real, request: Request) {
    && request.minimumTotal <= draft.stage1Score
    && request.minimumLayers <= PassingLayers(draft.layerScores)
    && AllPassed(draft.layerScores)
    && request.minimumPercentile <= percentile
  }

  function Finalize(draft: Draft, percentile: real, request: Request): Result {
    var c := draft.candidate;
    var gates := AllGates(c);
    var override := GateOverride(gates);
    var hardFail := draft.pointInTimeFailure || AnyOutcome(gates, HardFail);
    var stale := AnyOutcome(gates, GateStale);
    var waitGate := AnyOutcome(gates, GateWait);
    var stage1Label :=
      if hardFail then HardFailLabel
      else if stale then StaleLabel
      else if waitGate then WaitLabel
      else if NumericallyEligible(draft, percentile, request) then Eligible
      else Ineligible;
    var stage2Label :=
      if stage1Label != Eligible then Blocked
      else if c.execution.None? then NotRun
      else if !c.execution.value.triggerActive then WaitTrigger
      else if c.execution.value.score < 12.0 then Weak
      else Confirmed;
    var stage2Score := if c.execution.Some? then Some(c.execution.value.score) else None;
    var finalState :=
      if override.Some? then override.value
      else if hardFail then Reject
      else if stale || (draft.unofficialEvidence && c.mode == Production) then WaitDataWeak
      else if waitGate then Wait
      else if stage1Label != Eligible then Reject
      else if stage2Label == NotRun || stage2Label == WaitTrigger || stage2Label == Weak then Wait
      else Ready;
    Result(c.symbol, stage1Label, draft.stage1Score, stage2Label, stage2Score, percentile, draft.layerScores,
           PassingLayers(draft.layerScores), draft.penalties, finalState)
  }

  /** ASCII case folding; the symbol pattern admits ASCII only. */
  function FoldChar(c: char): char {
    if 'A' <= c <= 'Z' then (c as int + 32) as char else c
  }

  function Fold(s: string): string {
    seq(|s|, i requires 0 <= i < |s| => FoldChar(s[i]))
  }

  predicate UniqueSymbols(candidates: seq<Candidate>) {
    forall i, j :: 0 <= i < j < |candidates| ==> Fold(candidates[i].symbol) != Fold(candidates[j].symbol)
  }

  function Drafts(candidates: seq<Candidate>, decay: real -> real): (r: seq<Draft>)
    ensures |r| == |candidates|
  {
    if candidates == [] then []
    else Drafts(candidates[..|candidates| - 1], decay) + [DraftOf(candidates[|candidates| - 1], decay)]
  }

  lemma {:induction false} DraftsAt(candidates: seq<Candidate>, decay: real -> real, i: nat)
    requires i < |candidates|
    ensures Drafts(candidates, decay)[i] == DraftOf(candidates[i], decay)
  {
    if i < |candidates| - 1 {
      DraftsAt(candidates[..|candidates| - 1], decay, i);
    }
  }

  lemma {:induction false} ScoresAt(drafts: seq<Draft>, i: nat)
    requires i < |drafts|
    ensures ScoresOf(drafts)[i] == drafts[i].stage1Score
  {
    if i < |drafts| - 1 {
      ScoresAt(drafts[..|drafts| - 1], i);
    }
  }

  function ResultFor(c: Candidate, request: Request, decay: real -> real): Result
    requires request.candidates != []
  {
    var draft := DraftOf(c, decay);
    Finalize(draft, Percentile(ScoresOf(Drafts(request.candidates, decay)), draft.stage1Score), request)
  }

  /** What the input model guarantees before the engine runs. */
  ghost predicate ValidRequest(request: Request) {
    && request.candidates != []
    && 0.0 <= request.minimumTotal <= 28.0
    && 1 <= request.minimumLayers <= 4
    && 0.0 <= request.minimumPercentile <= 100.0
    && forall i :: 0 <= i < |request.candidates| ==>
         UniqueIds(request.candidates[i].evidence) && AllEvidenceValid(request.candidates[i].evidence)
  }

  // ---------- the rank within the batch ----------

  /** The drafts that score higher than `s`. */
  ghost function Better(drafts: seq<Draft>, s: real): set<int> {
    set j | 0 <= j < |drafts| && s < drafts[j].stage1Score
  }

  /** The members of a batch that score higher than member `i`. */
  ghost function Ahead(results: seq<Result>, i: nat): set<int>
    requires i < |results|
  {
    set j | 0 <= j < |results| && results[i].stage1Score < results[j].stage1Score
  }

  /** The distance to percentile 100 is the share of the batch that scores higher. */
  ghost predicate RankedExactly(results: seq<Result>, i: nat)
    requires i < |results|
  {
    (100.0 - results[i].percentile) * (|results| as real) == 100.0 * (|Ahead(results, i)| as real)
  }

  /** The percentile of a score leaves exactly the share of the drafts that score higher. */
  lemma {:induction false} PercentileExactly(drafts: seq<Draft>, s: real)
    requires drafts != []
    ensures (100.0 - Percentile(ScoresOf(drafts), s)) * (|drafts| as real) == 100.0 * (|Better(drafts, s)| as real)
  {
    var scores := ScoresOf(drafts);
    forall i | 0 <= i < |drafts| ensures scores[i] == drafts[i].stage1Score {
      ScoresAt(drafts, i);
    }
    RankComplement(scores, s);
    assert Above(scores, s) == Better(drafts, s);
  }

  /** The ranks of a batch: whoever is beaten by `k` of `n` members is `100 * k / n` short of percentile 100. */
  lemma {:induction false} RankExactly(drafts: seq<Draft>, results: seq<Result>, i: nat)
    requires i < |results| == |drafts|
    requires forall j :: 0 <= j < |results| ==> results[j].stage1Score == drafts[j].stage1Score
    requires results[i].percentile == Percentile(ScoresOf(drafts), drafts[i].stage1Score)
    ensures RankedExactly(results, i)
  {
    PercentileExactly(drafts, drafts[i].stage1Score);
    assert Better(drafts, drafts[i].stage1Score) == Ahead(results, i);
  }

  lemma {:induction false} AllRanked(drafts: seq<Draft>, request: Request, results: seq<Result>)
    requires |results| == |drafts| && drafts != []
    requires forall j :: 0 <= j < |results| ==>
               results[j] == Finalize(drafts[j], Percentile(ScoresOf(drafts), drafts[j].stage1Score), request)
    ensures forall i :: 0 <= i < |results| ==> RankedExactly(results, i)
  {
    forall i | 0 <= i < |results| ensures RankedExactly(results, i) {
      RankExactly(drafts, results, i);
    }
  }

  /** The percentile dictionary, indexed by symbol. */
  method RankDrafts(drafts: seq<Draft>) returns (percentiles: map<string, real>)
    requires forall i, j :: 0 <= i < j < |drafts| ==> drafts[i].candidate.symbol != drafts[j].candidate.symbol
    ensures forall i :: 0 <= i < |drafts| ==>
              drafts[i].candidate.symbol in percentiles
              && percentiles[drafts[i].candidate.symbol] == Percentile(ScoresOf(drafts), drafts[i].stage1Score)
  {
    percentiles := map[];
    for i := 0 to |drafts|
      invariant forall j :: 0 <= j < i ==>
                  drafts[j].candidate.symbol in percentiles
                  && percentiles[drafts[j].candidate.symbol] == Percentile(ScoresOf(drafts), drafts[j].stage1Score)
    {
      percentiles := percentiles[drafts[i].candidate.symbol := Percentile(ScoresOf(drafts), drafts[i].stage1Score)];
    }
  }

  method MakeDrafts(candidates: seq<Candidate>, decay: real -> real) returns (drafts: seq<Draft>)
    requires forall i :: 0 <= i < |candidates| ==>
               UniqueIds(candidates[i].evidence)
    ensures drafts == Drafts(candidates, decay)
  {
    drafts := [];
    for i := 0 to |candidates|
      invariant drafts == Drafts(candidates[..i], decay)
    {
      assert candidates[..i + 1][..i] == candidates[..i];
      var draft := MakeDraft(candidates[i], decay);
      drafts := drafts + [draft];
    }
    assert candidates[..|candidates|] == candidates;
  }

  /** The result of every draft, ranked within its batch. */
  method FinalizeDrafts(drafts: seq<Draft>, request: Request) returns (results: seq<Result>)
    requires drafts != []
    requires forall i, j :: 0 <= i < j < |drafts| ==> drafts[i].candidate.symbol != drafts[j].candidate.symbol
    ensures |results| == |drafts|
    ensures forall i :: 0 <= i < |drafts| ==>
              results[i] == Finalize(drafts[i], Percentile(ScoresOf(drafts), drafts[i].stage1Score), request)
  {
    var percentiles := RankDrafts(drafts);
    results := [];
    for i := 0 to |drafts|
      invariant |results| == i
      invariant forall j :: 0 <= j < i ==>
                  results[j] == Finalize(drafts[j], Percentile(ScoresOf(drafts), drafts[j].stage1Score), request)
    {
      results := results + [Finalize(drafts[i], percentiles[drafts[i].candidate.symbol], request)];
    }
  }

  /** Symbols that differ only in case are refused; otherwise every candidate gets its result, in order. */
  method EvaluateCausalBatch(request: Request, decay: real -> real) returns (results: Option<seq<Result>>)
    requires ValidRequest(request)
    ensures results.None? <==> !UniqueSymbols(request.candidates)
    ensures results.Some? ==>
              |results.value| == |request.candidates|
              && forall i :: 0 <= i < |request.candidates| ==>
                   results.value[i] == ResultFor(request.candidates[i], request, decay)
                   && RankedExactly(results.value, i)
  {
    if !UniqueSymbols(request.candidates) {
      return None;
    }
    var drafts := MakeDrafts(request.candidates, decay);
    forall i | 0 <= i < |drafts| ensures drafts[i] == DraftOf(request.candidates[i], decay) {
      DraftsAt(request.candidates, decay, i);
    }
    var out := FinalizeDrafts(drafts, request);
    AllRanked(drafts, request, out);
    return Some(out);
  }
}
