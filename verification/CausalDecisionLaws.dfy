/** When a candidate is READY, what gates can do, and what one candidate can do to another. */
module CausalDecisionLaws {
  import opened Common
  import opened Counting
  import opened Ordering
  import opened Products
  import opened Sums
  import opened CausalEvidence
  import opened CausalScoring
  import opened CausalLaws
  import opened CausalKeyCost
  import opened CausalDecision

  // ---------- READY ----------

  lemma {:induction false} FourPassing(s: seq<LayerScore>)
    requires |s| == 4 && AllPassed(s)
    ensures PassingLayers(s) == 4
  {
    assert s[..3][..2] == s[..2] && s[..2][..1] == s[..1] && s[..1][..0] == [];
    assert PassingLayers(s[..1]) == 1;
    assert PassingLayers(s[..2]) == 2;
    assert PassingLayers(s[..3]) == 3;
  }

  /** No gate fails hard, is stale, makes the candidate wait, or imposes one of the prioritised states. */
  predicate GatesClear(gates: seq<Gate>) {
    && !AnyOutcome(gates, HardFail)
    && !AnyOutcome(gates, GateStale)
    && !AnyOutcome(gates, GateWait)
    && forall i :: 0 <= i < |PRIORITY| ==> !Imposes(gates, PRIORITY[i])
  }

  lemma {:induction false} FirstImposedIs(gates: seq<Gate>, states: seq<FinalState>)
    ensures FirstImposed(gates, states).None? <==> forall i :: 0 <= i < |states| ==> !Imposes(gates, states[i])
    ensures FirstImposed(gates, states).Some? ==>
              exists i :: 0 <= i < |states| && FirstImposed(gates, states) == Some(states[i])
                  && Imposes(gates, states[i])
                          && forall j :: 0 <= j < i ==> !Imposes(gates, states[j])
  {
    if states != [] && !Imposes(gates, states[0]) {
      FirstImposedIs(gates, states[1..]);
      var r := FirstImposed(gates, states[1..]);
      if r.Some? {
        var i :| 0 <= i < |states[1..]| && r == Some(states[1..][i]) && Imposes(gates, states[1..][i])
                 && forall j :: 0 <= j < i ==> !Imposes(gates, states[1..][j]);
        assert states[i + 1] == states[1..][i];
        forall j | 0 <= j < i + 1 ensures !Imposes(gates, states[j]) {
          if 0 < j { assert states[j] == states[1..][j - 1]; }
        }
      } else {
        forall i | 0 <= i < |states| ensures !Imposes(gates, states[i]) {
          if 0 < i { assert states[i] == states[1..][i - 1]; }
        }
      }
    }
  }

  /**
   READY, exactly: clear gates, no evidence from the future, no unofficial support in production, the total, every
   layer minimum and the percentile reached, an active trigger and an execution score of at least 12.  The
   minimum number of layers plays no part, because every layer must pass anyway.
   */
  lemma {:induction false} ReadyExactly(draft: Draft, percentile: real, request: Request)
    requires |draft.layerScores| == 4 && request.minimumLayers <= 4
    ensures Finalize(draft, percentile, request).finalState == Ready <==>
      && GatesClear(AllGates(draft.candidate))
      && !draft.pointInTimeFailure
      && !(draft.unofficialEvidence && draft.candidate.mode == Production)
      && request.minimumTotal <= draft.stage1Score
      && AllPassed(draft.layerScores)
      && request.minimumPercentile <= percentile
      && draft.candidate.execution.Some?
      && draft.candidate.execution.value.triggerActive
      && 12.0 <= draft.candidate.execution.value.score
  {
    var gates := AllGates(draft.candidate);
    FirstImposedIs(gates, PRIORITY);
    if AllPassed(draft.layerScores) {
      FourPassing(draft.layerScores);
    }
    var override := GateOverride(gates);
    if override.Some? {
      assert override.value in PRIORITY;
    }
  }

  // ---------- gates ----------

  predicate MoreGates(fewer: seq<Gate>, more: seq<Gate>) {
    forall g :: g in fewer ==> g in more
  }

  /** Severity of the imposed state: its place in the priority list, or the end of the list. */
  function Severity(gates: seq<Gate>, states: seq<FinalState>): nat {
    if states == [] || Imposes(gates, states[0]) then 0 else 1 + Severity(gates, states[1..])
  }

  /** More gates can only impose a state at least as severe. */
  lemma {:induction false} OverrideOnlyEscalates(fewer: seq<Gate>, more: seq<Gate>, states: seq<FinalState>)
    requires MoreGates(fewer, more)
    ensures Severity(more, states) <= Severity(fewer, states)
    ensures FirstImposed(fewer, states)
            == if Severity(fewer, states) < |states| then Some(states[Severity(fewer, states)]) else None
  {
    if states != [] {
      OverrideOnlyEscalates(fewer, more, states[1..]);
    }
  }

  /** A prioritised state imposed by any gate is the final state, the most severe one if there are several. */
  lemma {:induction false} OverrideDecides(draft: Draft, percentile: real, request: Request)
    requires Severity(AllGates(draft.candidate), PRIORITY) < |PRIORITY|
    ensures Finalize(draft, percentile, request).finalState == PRIORITY[Severity(AllGates(draft.candidate), PRIORITY)]
  {
    OverrideOnlyEscalates(AllGates(draft.candidate), AllGates(draft.candidate), PRIORITY);
  }

  /** The same candidate with other gates; evidence, cutoff, mode, trigger and execution score are kept. */
  predicate Regated(c: Candidate, d: Candidate) {
    && c.symbol == d.symbol && c.asOf == d.asOf && c.evidence == d.evidence && c.mode == d.mode
    && (c.execution.Some? <==> d.execution.Some?)
    && (c.execution.Some? ==>
          c.execution.value.score == d.execution.value.score
          && c.execution.value.triggerActive == d.execution.value.triggerActive)
  }

  predicate SameEvidence(c: Candidate, d: Candidate) {
    c.asOf == d.asOf && c.evidence == d.evidence
  }

  lemma {:induction false} ScoreOfBatch(candidates: seq<Candidate>, decay: real -> real, i: nat)
    requires i < |candidates|
    ensures ScoresOf(Drafts(candidates, decay))[i] == DraftOf(candidates[i], decay).stage1Score
  {
    ScoresAt(Drafts(candidates, decay), i);
    DraftsAt(candidates, decay, i);
  }

  lemma {:induction false} ScoresDependOnEvidence(request: Request, other: Request, decay: real -> real)
    requires |request.candidates| == |other.candidates|
    requires forall i :: 0 <= i < |request.candidates| ==> SameEvidence(request.candidates[i], other.candidates[i])
    ensures ScoresOf(Drafts(request.candidates, decay)) == ScoresOf(Drafts(other.candidates, decay))
  {
    forall i | 0 <= i < |request.candidates|
      ensures ScoresOf(Drafts(request.candidates, decay))[i] == ScoresOf(Drafts(other.candidates, decay))[i]
    {
      ScoreOfBatch(request.candidates, decay, i);
      ScoreOfBatch(other.candidates, decay, i);
    }
  }

  function Replace(request: Request, i: nat, c: Candidate): Request
    requires i < |request.candidates|
  {
    request.(candidates := request.candidates[i := c])
  }

  /** Gates, execution and mode of one candidate change nothing for any other candidate. */
  lemma {:induction false} NonInterference(request: Request, i: nat, c: Candidate, j: nat, decay: real -> real)
    requires i < |request.candidates| && j < |request.candidates| && i != j
    requires SameEvidence(request.candidates[i], c)
    ensures ResultFor(Replace(request, i, c).candidates[j], Replace(request, i, c), decay)
            == ResultFor(request.candidates[j], request, decay)
  {
    var other := Replace(request, i, c);
    ScoresDependOnEvidence(other, request, decay);
    ResultDependsOnScores(request.candidates[j], request, other, decay);
  }

  /** No additional gate, whatever state it names, makes a candidate READY. */
  lemma {:induction false} GatesNeverUnlockReady(request: Request, i: nat, c: Candidate, decay: real -> real)
    requires i < |request.candidates| && request.minimumLayers <= 4
    requires Regated(request.candidates[i], c) && MoreGates(AllGates(request.candidates[i]), AllGates(c))
    requires ResultFor(c, Replace(request, i, c), decay).finalState == Ready
    ensures ResultFor(request.candidates[i], request, decay).finalState == Ready
  {
    var before := request.candidates[i];
    var after := Replace(request, i, c);
    ScoresDependOnEvidence(after, request, decay);
    var scores := ScoresOf(Drafts(request.candidates, decay));
    var p := Percentile(scores, DraftOf(c, decay).stage1Score);
    ReadyExactly(DraftOf(c, decay), p, after);
    ReadyExactly(DraftOf(before, decay), p, request);
  }

  // ---------- percentiles ----------

  lemma {:induction false} RatioMonotone(a: real, b: real, n: real)
    requires 0.0 < n && a <= b
    ensures Quotient(100.0 * a, n) <= Quotient(100.0 * b, n)
    ensures Quotient(100.0 * n, n) == 100.0
  {
    var p, q := Quotient(100.0 * a, n), Quotient(100.0 * b, n);
    assert p * n == 100.0 * a;
    assert q * n == 100.0 * b;
    SignOfFactor(q - p, n);
  }

  /** A higher score never has a lower percentile, and the best score has percentile 100. */
  lemma {:induction false} PercentileMonotone(scores: seq<real>, s: real, t: real)
    requires scores != [] && s <= t
    ensures Percentile(scores, s) <= Percentile(scores, t)
    ensures (forall i :: 0 <= i < |scores| ==> scores[i] <= t) ==> Percentile(scores, t) == 100.0
  {
    CountMonotone(scores, s, t);
    RatioMonotone(CountAtMost(scores, s) as real, CountAtMost(scores, t) as real, |scores| as real);
    if forall i :: 0 <= i < |scores| ==> scores[i] <= t {
      CountAll(scores, t);
    }
  }

  /** How many members of the batch fall strictly below a percentile. */
  function CountBelow(scores: seq<real>, batch: seq<real>, p: real): nat
    requires batch != []
  {
    if scores == [] then 0
    else
      var n := |scores| - 1;
      CountBelow(scores[..n], batch, p) + if Percentile(batch, scores[n]) < p then 1 else 0
  }

  /** Every member below percentile `p` scores at most the best of them. */
  lemma {:induction false} BestBelow(scores: seq<real>, batch: seq<real>, p: real) returns (m: real)
    requires batch != [] && 0 < CountBelow(scores, batch, p)
    ensures Percentile(batch, m) < p
    ensures CountBelow(scores, batch, p) <= CountAtMost(scores, m)
  {
    var n := |scores| - 1;
    if CountBelow(scores[..n], batch, p) == 0 {
      m := scores[n];
      assert CountBelow(scores, batch, p) == 1;
    } else {
      m := BestBelow(scores[..n], batch, p);
      if Percentile(batch, scores[n]) < p && m < scores[n] {
        CountMonotone(scores[..n], m, scores[n]);
        m := scores[n];
      }
    }
  }

  lemma {:induction false} BelowRatio(count: real, n: real, p: real)
    requires 0.0 < n && Quotient(100.0 * count, n) < p
    ensures 100.0 * count < Times(p, n)
  {
    var q := Quotient(100.0 * count, n);
    assert q * n == 100.0 * count;
    assert 0.0 < (p - q) * n;
  }

  lemma {:induction false} BestBelowCount(scores: seq<real>, p: real)
    requires scores != [] && 0 < CountBelow(scores, scores, p)
    ensures exists m :: CountBelow(scores, scores, p) <= CountAtMost(scores, m)
                        && 100.0 * (CountAtMost(scores, m) as real) < Times(p, |scores| as real)
  {
    var m := BestBelow(scores, scores, p);
    BelowRatio(CountAtMost(scores, m) as real, |scores| as real, p);
  }

  /** At most `p` percent of a batch falls strictly below percentile `p`; fewer, unless nobody does. */
  lemma {:induction false} PercentileCountingBound(scores: seq<real>, p: real)
    requires scores != [] && 0.0 <= p
    ensures 100.0 * (CountBelow(scores, scores, p) as real) <= Times(p, |scores| as real)
    ensures 0 < CountBelow(scores, scores, p) ==>
              100.0 * (CountBelow(scores, scores, p) as real) < Times(p, |scores| as real)
  {
    if 0 < CountBelow(scores, scores, p) {
      BestBelowCount(scores, p);
    } else {
      TimesBounds(p, |scores| as real);
    }
  }

  // ---------- order of candidates and of evidence ----------

  function Stage1Of(decay: real -> real): Candidate -> real {
    (c: Candidate) => DraftOf(c, decay).stage1Score
  }

  lemma {:induction false} ScoresAreMapped(candidates: seq<Candidate>, decay: real -> real)
    ensures ScoresOf(Drafts(candidates, decay)) == MapSeq(Stage1Of(decay), candidates)
  {
    forall i | 0 <= i < |candidates| ensures ScoresOf(Drafts(candidates, decay))[i] == Stage1Of(decay)(candidates[i]) {
      ScoreOfBatch(candidates, decay, i);
    }
  }

  lemma {:induction false} PercentilePermutation(scores: seq<real>, others: seq<real>, s: real)
    requires scores != [] && multiset(scores) == multiset(others)
    ensures others != [] && Percentile(scores, s) == Percentile(others, s)
  {
    assert |multiset(scores)| == |scores| && |multiset(others)| == |others|;
    CountPermutation(scores, others, s);
  }

  lemma {:induction false} ResultDependsOnScores(c: Candidate, request: Request, other: Request, decay: real -> real)
    requires request.candidates != [] && other.candidates != []
    requires other == request.(candidates := other.candidates)
    requires forall s :: Percentile(ScoresOf(Drafts(request.candidates, decay)), s)
                         == Percentile(ScoresOf(Drafts(other.candidates, decay)), s)
    ensures ResultFor(c, other, decay) == ResultFor(c, request, decay)
  {
  }

  /** Listing the candidates in another order changes no result. */
  lemma {:induction false} CandidateOrderIrrelevant(request: Request, other: Request, c: Candidate, decay: real -> real)
    requires request.candidates != []
    requires multiset(request.candidates) == multiset(other.candidates)
    requires other == request.(candidates := other.candidates)
    ensures other.candidates != []
    ensures ResultFor(c, other, decay) == ResultFor(c, request, decay)
  {
    MapSeqPermutation(Stage1Of(decay), request.candidates, other.candidates);
    ScoresAreMapped(request.candidates, decay);
    ScoresAreMapped(other.candidates, decay);
    var scores, others := ScoresOf(Drafts(request.candidates, decay)), ScoresOf(Drafts(other.candidates, decay));
    forall s ensures Percentile(scores, s) == Percentile(others, s) {
      PercentilePermutation(scores, others, s);
    }
    ResultDependsOnScores(c, request, other, decay);
  }

  lemma {:induction false} PermutedEvidenceDraft(c: Candidate, evidence: seq<Evidence>, decay: real -> real)
    requires multiset(evidence) == multiset(c.evidence)
    ensures DraftOf(c.(evidence := evidence), decay) == DraftOf(c, decay).(candidate := c.(evidence := evidence))
  {
    ScoringIgnoresOrder(evidence, c.evidence, ScorerAt(c.asOf, decay));
    forall e ensures e in evidence <==> e in c.evidence {
      assert e in evidence <==> e in multiset(evidence);
      assert e in c.evidence <==> e in multiset(c.evidence);
    }
  }

  lemma {:induction false} PermutedEvidenceScores(request: Request, i: nat, evidence: seq<Evidence>,
                                                  decay: real -> real)
    requires i < |request.candidates|
    requires multiset(evidence) == multiset(request.candidates[i].evidence)
    ensures var other := Replace(request, i, request.candidates[i].(evidence := evidence));
      ScoresOf(Drafts(other.candidates, decay)) == ScoresOf(Drafts(request.candidates, decay))
  {
    PermutedEvidenceDraft(request.candidates[i], evidence, decay);
    var other := Replace(request, i, request.candidates[i].(evidence := evidence));
    forall k | 0 <= k < |request.candidates|
      ensures ScoresOf(Drafts(other.candidates, decay))[k] == ScoresOf(Drafts(request.candidates, decay))[k]
    {
      ScoreOfBatch(request.candidates, decay, k);
      ScoreOfBatch(other.candidates, decay, k);
    }
  }

  lemma {:induction false} FinalizeIgnoresEvidenceOrder(draft: Draft, evidence: seq<Evidence>, percentile: real,
                                                        request: Request)
    ensures Finalize(draft.(candidate := draft.candidate.(evidence := evidence)), percentile, request)
            == Finalize(draft, percentile, request)
  {
  }

  /** Listing a candidate's evidence in another order changes no result of the batch. */
  lemma {:induction false} EvidenceOrderIrrelevant(request: Request, i: nat, evidence: seq<Evidence>, j: nat,
                                                   decay: real -> real)
    requires i < |request.candidates| && j < |request.candidates|
    requires multiset(evidence) == multiset(request.candidates[i].evidence)
    ensures var other := Replace(request, i, request.candidates[i].(evidence := evidence));
      ResultFor(other.candidates[j], other, decay) == ResultFor(request.candidates[j], request, decay)
  {
    var other := Replace(request, i, request.candidates[i].(evidence := evidence));
    PermutedEvidenceScores(request, i, evidence, decay);
    ResultDependsOnScores(other.candidates[j], request, other, decay);
    if i == j {
      var c := request.candidates[i];
      PermutedEvidenceDraft(c, evidence, decay);
      var draft := DraftOf(c, decay);
      FinalizeIgnoresEvidenceOrder(draft, evidence,
                                   Percentile(ScoresOf(Drafts(request.candidates, decay)), draft.stage1Score), request);
    }
  }

  // ---------- evidence from the future ----------

  lemma {:induction false} WeightlessPair(evidence: seq<Evidence>, e: Evidence, score: Scorer, layer: Layer,
                                          other: Layer)
    requires score(e) == 0.0
    ensures PairCharge(evidence + [e], score, layer, other, SortedKeys(evidence + [e]))
            == PairCharge(evidence, score, layer, other, SortedKeys(evidence))
  {
    KeysGrow(evidence, e);
    var keys := SortedKeys(evidence + [e]);
    PairChargeOver(evidence, score, layer, other, keys);
    forall i | 0 <= i < |keys|
      ensures KeyCharge(evidence + [e], score, layer, other)(keys[i])
              == KeyCharge(evidence, score, layer, other)(keys[i])
    {
      StrongestSnoc(evidence, e, score, layer, keys[i]);
      StrongestSnoc(evidence, e, score, other, keys[i]);
    }
    SumByEqual(KeyCharge(evidence + [e], score, layer, other), KeyCharge(evidence, score, layer, other), keys);
  }

  lemma {:induction false} WeightlessLayer(evidence: seq<Evidence>, e: Evidence, score: Scorer, layer: Layer)
    requires score(e) == 0.0
    ensures ScoreOf(evidence + [e], score, layer) == ScoreOf(evidence, score, layer)
  {
    RawScoreSnoc(evidence, e, score, layer);
    LayerPenaltyIs(evidence, score, layer);
    LayerPenaltyIs(evidence + [e], score, layer);
    WeightlessPair(evidence, e, score, layer, Others(layer).0);
    WeightlessPair(evidence, e, score, layer, Others(layer).1);
    WeightlessPair(evidence, e, score, layer, Others(layer).2);
  }

  /**
   No look-ahead: evidence dated or observed after the cutoff moves no layer score and so no percentile, yet its
   presence alone keeps the candidate from being READY.
   */
  lemma {:induction false} FutureEvidence(c: Candidate, e: Evidence, percentile: real, request: Request,
                                          decay: real -> real)
    requires e.Valid() && IsDecay(decay) && FreshnessOf(e, c.asOf) == Future && request.minimumLayers <= 4
    ensures var d := DraftOf(c.(evidence := c.evidence + [e]), decay);
      && d.layerScores == DraftOf(c, decay).layerScores
      && d.stage1Score == DraftOf(c, decay).stage1Score
      && Finalize(d, percentile, request).finalState != Ready
  {
    var score := ScorerAt(c.asOf, decay);
    AdjustedBounds(e, c.asOf, decay);
    WeightlessLayer(c.evidence, e, score, Cause);
    WeightlessLayer(c.evidence, e, score, Sponsor);
    WeightlessLayer(c.evidence, e, score, Structure);
    WeightlessLayer(c.evidence, e, score, Flow);
    var d := DraftOf(c.(evidence := c.evidence + [e]), decay);
    assert e in c.evidence + [e];
    ReadyExactly(d, percentile, request);
  }
}
