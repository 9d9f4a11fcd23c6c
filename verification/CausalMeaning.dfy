/**
 What the engine returns for a candidate, read from its evidence and its gates: the penalties, the four layer scores,
 and exactly when each label and each final state is given.
 */
module CausalMeaning {
  import opened Common
  import opened Ordering
  import opened Sums
  import opened CausalEvidence
  import opened CausalScoring
  import opened CausalDecision
  import CausalLaws

  // ---------- the layer scores ----------

  /** The items of a layer, in the order given. */
  function ItemsOf(evidence: seq<Evidence>, layer: Layer): seq<Evidence> {
    if evidence == [] then []
    else
      var last := evidence[|evidence| - 1];
      ItemsOf(evidence[..|evidence| - 1], layer) + if last.layer == layer then [last] else []
  }

  lemma {:induction false} RawScoreIsLayerSum(evidence: seq<Evidence>, score: Scorer, layer: Layer)
    ensures RawScore(evidence, score, layer) == SumBy(score, ItemsOf(evidence, layer))
  {
    if evidence != [] {
      var front, last := evidence[..|evidence| - 1], evidence[|evidence| - 1];
      RawScoreIsLayerSum(front, score, layer);
      if last.layer == layer {
        SumBySnoc(score, ItemsOf(front, layer), last);
      } else {
        assert ItemsOf(evidence, layer) == ItemsOf(front, layer);
      }
    }
  }

  /** The penalties that name a layer on either side. */
  function Naming(penalties: seq<Penalty>, layer: Layer): seq<Penalty> {
    if penalties == [] then []
    else
      var last := penalties[|penalties| - 1];
      Naming(penalties[..|penalties| - 1], layer) + if last.left == layer || last.right == layer then [last] else []
  }

  function HalfAmount(): Penalty -> real { (p: Penalty) => p.amount / 2.0 }

  lemma {:induction false} ChargeIsHalf(penalties: seq<Penalty>, layer: Layer)
    requires CausalLaws.WellFormedPenalties(penalties)
    ensures SumBy(HalfOn(layer), penalties) == SumBy(HalfAmount(), Naming(penalties, layer))
  {
    if penalties != [] {
      var front, last := penalties[..|penalties| - 1], penalties[|penalties| - 1];
      ChargeIsHalf(front, layer);
      if last.left == layer || last.right == layer {
        SumBySnoc(HalfAmount(), Naming(front, layer), last);
      } else {
        assert Naming(penalties, layer) == Naming(front, layer);
      }
    }
  }

  /** A layer score: the sum held between zero and the cap, less the charge as far as the sum allows. */
  ghost predicate ScoredFrom(r: LayerScore, layer: Layer, sum: real, charge: real, cap: real, minimum: real) {
    && r.layer == layer
    && r.rawScore == (if sum <= 0.0 then 0.0 else if cap <= sum then cap else sum)
    && r.penalty == (if charge <= r.rawScore then charge else r.rawScore)
    && r.finalScore == r.rawScore - r.penalty
    && (r.passed <==> minimum <= r.finalScore)
  }

  /** The four layer scores and the total of a result, from the evidence and the penalties the result lists. */
  ghost predicate ScoredAs(r: Result, evidence: seq<Evidence>, score: Scorer) {
    var sum := (layer: Layer) => SumBy(score, ItemsOf(evidence, layer));
    var charge := (layer: Layer) => SumBy(HalfAmount(), Naming(r.penalties, layer));
    && |r.layerScores| == 4
    && ScoredFrom(r.layerScores[0], Cause, sum(Cause), charge(Cause), 6.0, 2.0)
    && ScoredFrom(r.layerScores[1], Sponsor, sum(Sponsor), charge(Sponsor), 10.0, 4.0)
    && ScoredFrom(r.layerScores[2], Structure, sum(Structure), charge(Structure), 6.0, 2.0)
    && ScoredFrom(r.layerScores[3], Flow, sum(Flow), charge(Flow), 6.0, 2.0)
    && r.stage1Score == r.layerScores[0].finalScore + r.layerScores[1].finalScore
                        + r.layerScores[2].finalScore + r.layerScores[3].finalScore
  }

  lemma {:induction false} LayerScoredFrom(evidence: seq<Evidence>, score: Scorer, layer: Layer)
    ensures ScoredFrom(ScoreOf(evidence, score, layer), layer, SumBy(score, ItemsOf(evidence, layer)),
                       SumBy(HalfAmount(), Naming(Penalties(evidence, score), layer)),
                       if layer == Sponsor then 10.0 else 6.0, if layer == Sponsor then 4.0 else 2.0)
  {
    RawScoreIsLayerSum(evidence, score, layer);
    CausalLaws.PenaltiesWellFormed(evidence, score);
    ChargeIsHalf(Penalties(evidence, score), layer);
  }

  // ---------- the penalties ----------

  /** `a` is the strongest positive contribution with which an item of the layer names the key. */
  ghost predicate Best(evidence: seq<Evidence>, score: Scorer, layer: Layer, key: string, a: real) {
    && 0.0 < a
    && (exists e :: e in evidence && e.layer == layer && key in e.rawInputKeys && score(e) == a)
    && forall e :: e in evidence && e.layer == layer && key in e.rawInputKeys ==> score(e) <= a
  }

  lemma {:induction false} BestIsStrongest(evidence: seq<Evidence>, score: Scorer, layer: Layer, key: string, a: real)
    ensures Best(evidence, score, layer, key, a) <==> 0.0 < a && Strongest(evidence, score, layer, key) == a
  {
    CausalLaws.StrongestIsMaximum(evidence, score, layer, key);
    if Best(evidence, score, layer, key, a) {
      var e :| e in evidence && e.layer == layer && key in e.rawInputKeys && score(e) == a;
      assert Names(e, score, layer, key);
    }
  }

  predicate Precedes(left: Layer, right: Layer) {
    || (left == Cause && right != Cause)
    || (left == Sponsor && (right == Structure || right == Flow))
    || (left == Structure && right == Flow)
  }

  /** Three tenths of the smaller of the two strongest contributions that share the key. */
  ghost predicate Shares(evidence: seq<Evidence>, score: Scorer, p: Penalty) {
    && Precedes(p.left, p.right)
    && exists a, b :: Best(evidence, score, p.left, p.rawInputKey, a)
                      && Best(evidence, score, p.right, p.rawInputKey, b)
                      && p.amount == 0.3 * (if a <= b then a else b)
  }

  lemma {:induction false} PairPenaltyMembers(evidence: seq<Evidence>, score: Scorer, left: Layer, right: Layer,
                                              keys: seq<string>, p: Penalty)
    ensures p in PairPenalties(evidence, score, left, right, keys) <==>
              && p.left == left && p.right == right && p.rawInputKey in keys
              && Shared(evidence, score, left, right, p.rawInputKey)
              && p.amount == PairAmount(evidence, score, left, right, p.rawInputKey)
  {
    if keys != [] {
      var n := |keys| - 1;
      PairPenaltyMembers(evidence, score, left, right, keys[..n], p);
      assert p.rawInputKey in keys <==> p.rawInputKey in keys[..n] || p.rawInputKey == keys[n];
    }
  }

  lemma {:induction false} PenaltyMembers(evidence: seq<Evidence>, score: Scorer, pairs: seq<(Layer, Layer)>,
                                          p: Penalty)
    ensures p in PenaltiesOfPairs(evidence, score, pairs) <==>
              && (p.left, p.right) in pairs && p.rawInputKey in SortedKeys(evidence)
              && Shared(evidence, score, p.left, p.right, p.rawInputKey)
              && p.amount == PairAmount(evidence, score, p.left, p.right, p.rawInputKey)
  {
    if pairs != [] {
      var n := |pairs| - 1;
      PenaltyMembers(evidence, score, pairs[..n], p);
      PairPenaltyMembers(evidence, score, pairs[n].0, pairs[n].1, SortedKeys(evidence), p);
      assert (p.left, p.right) in pairs <==> (p.left, p.right) in pairs[..n] || (p.left, p.right) == pairs[n];
    }
  }

  lemma {:induction false} PairsExactly(left: Layer, right: Layer)
    ensures (left, right) in PAIRS <==> Precedes(left, right)
  {
    assert PAIRS[0] == (Cause, Sponsor) && PAIRS[1] == (Cause, Structure) && PAIRS[2] == (Cause, Flow);
    assert PAIRS[3] == (Sponsor, Structure) && PAIRS[4] == (Sponsor, Flow) && PAIRS[5] == (Structure, Flow);
  }

  lemma {:induction false} BestKeyIsListed(evidence: seq<Evidence>, score: Scorer, layer: Layer, key: string)
    requires 0.0 < Strongest(evidence, score, layer, key)
    ensures key in SortedKeys(evidence)
  {
    CausalLaws.StrongestIsMaximum(evidence, score, layer, key);
    CausalLaws.AllKeysMembers(evidence, key);
    OrdersAreTotal();
    SortDistinctIsSorted(StringLe, AllKeys(evidence));
  }

  /**
   The listed penalties, exactly: one for every two layers and raw key such that a positive item of each layer
   names the key, at three tenths of the smaller of the two strongest contributions.
   */
  lemma {:induction false} PenaltiesExactly(evidence: seq<Evidence>, score: Scorer, p: Penalty)
    ensures p in Penalties(evidence, score) <==> Shares(evidence, score, p)
  {
    PenaltyMembers(evidence, score, PAIRS, p);
    PairsExactly(p.left, p.right);
    var a, b := Strongest(evidence, score, p.left, p.rawInputKey), Strongest(evidence, score, p.right, p.rawInputKey);
    BestIsStrongest(evidence, score, p.left, p.rawInputKey, a);
    BestIsStrongest(evidence, score, p.right, p.rawInputKey, b);
    if Shared(evidence, score, p.left, p.right, p.rawInputKey) {
      BestKeyIsListed(evidence, score, p.left, p.rawInputKey);
    }
    if Shares(evidence, score, p) {
      var x, y :| Best(evidence, score, p.left, p.rawInputKey, x) && Best(evidence, score, p.right, p.rawInputKey, y)
                  && p.amount == 0.3 * (if x <= y then x else y);
      BestIsStrongest(evidence, score, p.left, p.rawInputKey, x);
      BestIsStrongest(evidence, score, p.right, p.rawInputKey, y);
    }
  }

  lemma {:induction false} PairPenaltiesDistinct(evidence: seq<Evidence>, score: Scorer, left: Layer, right: Layer,
                                                 keys: seq<string>)
    requires Distinct(keys)
    ensures Distinct(PairPenalties(evidence, score, left, right, keys))
  {
    if keys != [] {
      var n := |keys| - 1;
      PairPenaltiesDistinct(evidence, score, left, right, keys[..n]);
      var earlier := PairPenalties(evidence, score, left, right, keys[..n]);
      forall p | p in earlier ensures p.rawInputKey != keys[n] {
        PairPenaltyMembers(evidence, score, left, right, keys[..n], p);
      }
    }
  }

  lemma {:induction false} DistinctConcat<T>(s: seq<T>, t: seq<T>)
    requires Distinct(s) && Distinct(t) && forall x :: x in s ==> x !in t
    ensures Distinct(s + t)
  {
    forall i, j | 0 <= i < j < |s + t| ensures (s + t)[i] != (s + t)[j] {
      if i < |s| <= j {
        assert s[i] in s && t[j - |s|] in t;
      }
    }
  }

  lemma {:induction false} PenaltiesDistinct(evidence: seq<Evidence>, score: Scorer, pairs: seq<(Layer, Layer)>)
    requires Distinct(pairs)
    ensures Distinct(PenaltiesOfPairs(evidence, score, pairs))
  {
    if pairs != [] {
      var n := |pairs| - 1;
      var earlier := PenaltiesOfPairs(evidence, score, pairs[..n]);
      var last := PairPenalties(evidence, score, pairs[n].0, pairs[n].1, SortedKeys(evidence));
      PenaltiesDistinct(evidence, score, pairs[..n]);
      OrdersAreTotal();
      SortDistinctIsSorted(StringLe, AllKeys(evidence));
      PairPenaltiesDistinct(evidence, score, pairs[n].0, pairs[n].1, SortedKeys(evidence));
      forall p | p in earlier ensures p !in last {
        PenaltyMembers(evidence, score, pairs[..n], p);
        PairPenaltyMembers(evidence, score, pairs[n].0, pairs[n].1, SortedKeys(evidence), p);
      }
      DistinctConcat(earlier, last);
    }
  }

  /** No penalty is listed twice. */
  lemma {:induction false} EachPenaltyOnce(evidence: seq<Evidence>, score: Scorer)
    ensures Distinct(Penalties(evidence, score))
  {
    PenaltiesDistinct(evidence, score, PAIRS);
  }

  // ---------- evidence that decides ----------

  /** Some item is dated, or was observed, after the cutoff. */
  ghost predicate LooksAhead(c: Candidate) {
    exists e :: e in c.evidence && (c.asOf < e.sourceDate || c.asOf < e.observedAt)
  }

  /** Some item with a positive contribution from the past comes from an unofficial source or is synthetic. */
  ghost predicate LeansOnUnofficial(c: Candidate) {
    exists e :: e in c.evidence && 0.0 < e.contribution && e.sourceDate <= c.asOf && e.observedAt <= c.asOf
                && e.trust in {OpenSourceUnofficial, UnofficialWrapper, UnofficialTemp, SyntheticTest}
  }

  lemma {:induction false} FutureFlag(c: Candidate)
    ensures FromFuture(c.evidence, c.asOf) <==> LooksAhead(c)
  {
    if e :| e in c.evidence && FreshnessOf(e, c.asOf) == Future {
      assert c.asOf < e.sourceDate || c.asOf < e.observedAt;
    }
    if e :| e in c.evidence && (c.asOf < e.sourceDate || c.asOf < e.observedAt) {
      assert FreshnessOf(e, c.asOf) == Future;
    }
  }

  lemma {:induction false} SupportExactly(c: Candidate, e: Evidence, decay: real -> real)
    requires IsDecay(decay) && e.Valid()
    ensures 0.0 < Adjusted(e, c.asOf, decay) && Unofficial(e.trust) <==>
              0.0 < e.contribution && e.sourceDate <= c.asOf && e.observedAt <= c.asOf
              && e.trust in {OpenSourceUnofficial, UnofficialWrapper, UnofficialTemp, SyntheticTest}
  {
    AdjustedBounds(e, c.asOf, decay);
  }

  lemma {:induction false} UnofficialFlag(c: Candidate, decay: real -> real)
    requires IsDecay(decay) && AllEvidenceValid(c.evidence)
    ensures RestsOnUnofficial(c.evidence, c.asOf, decay) <==> LeansOnUnofficial(c)
  {
    forall i | 0 <= i < |c.evidence|
      ensures 0.0 < Adjusted(c.evidence[i], c.asOf, decay) && Unofficial(c.evidence[i].trust) <==>
                && 0.0 < c.evidence[i].contribution
                && c.evidence[i].sourceDate <= c.asOf && c.evidence[i].observedAt <= c.asOf
                && c.evidence[i].trust in {OpenSourceUnofficial, UnofficialWrapper, UnofficialTemp, SyntheticTest}
    {
      SupportExactly(c, c.evidence[i], decay);
    }
  }

  lemma {:induction false} DraftFlags(c: Candidate, decay: real -> real)
    requires IsDecay(decay) && AllEvidenceValid(c.evidence)
    ensures DraftOf(c, decay).pointInTimeFailure <==> LooksAhead(c)
    ensures DraftOf(c, decay).unofficialEvidence <==> LeansOnUnofficial(c)
  {
    FutureFlag(c);
    UnofficialFlag(c, decay);
  }

  // ---------- gates, labels and the final state ----------

  predicate HasGate(c: Candidate, g: Gate) {
    g in c.gates || (c.execution.Some? && g in c.execution.value.gates)
  }

  ghost predicate Says(c: Candidate, outcome: GateOutcome) {
    exists g :: HasGate(c, g) && g.outcome == outcome
  }

  ghost predicate Demands(c: Candidate, state: FinalState) {
    exists g :: HasGate(c, g) && g.overrideState == Some(state)
  }

  /** No gate demands one of the six prioritised states. */
  ghost predicate Unforced(c: Candidate) {
    && !Demands(c, StopTradingNow) && !Demands(c, LockedNoTrade) && !Demands(c, NoTrade)
    && !Demands(c, WaitEmotionalRisk) && !Demands(c, WaitFomo) && !Demands(c, WaitMtfConflict)
  }

  ghost function Passed(layerScores: seq<LayerScore>): set<int> {
    set i | 0 <= i < |layerScores| && layerScores[i].passed
  }

  lemma {:induction false} PassingLayersCount(layerScores: seq<LayerScore>)
    ensures PassingLayers(layerScores) == |Passed(layerScores)|
  {
    if layerScores == [] {
      assert Passed(layerScores) == {};
    } else {
      var n := |layerScores| - 1;
      PassingLayersCount(layerScores[..n]);
      var before := Passed(layerScores[..n]);
      assert n !in before;
      assert Passed(layerScores) == if layerScores[n].passed then before + {n} else before;
    }
  }

  /** The numbers suffice: the total, the number of layers, every layer, and the rank. */
  ghost predicate NumbersSuffice(r: Result, request: Request) {
    && request.minimumTotal <= r.stage1Score
    && request.minimumLayers <= |Passed(r.layerScores)|
    && (forall i :: 0 <= i < |r.layerScores| ==> r.layerScores[i].passed)
    && request.minimumPercentile <= r.percentile
  }

  ghost predicate Labelled(r: Result, c: Candidate, request: Request, ahead: bool) {
    var hard, stale, wait := ahead || Says(c, HardFail), Says(c, GateStale), Says(c, GateWait);
    && (r.stage1Label == HardFailLabel <==> hard)
    && (r.stage1Label == StaleLabel <==> !hard && stale)
    && (r.stage1Label == WaitLabel <==> !hard && !stale && wait)
    && (r.stage1Label == Eligible <==> !hard && !stale && !wait && NumbersSuffice(r, request))
    && (r.stage1Label == Ineligible <==> !hard && !stale && !wait && !NumbersSuffice(r, request))
  }

  ghost predicate Executed(r: Result, c: Candidate) {
    && (r.stage2Label == Blocked <==> r.stage1Label != Eligible)
    && (r.stage2Label == NotRun <==> r.stage1Label == Eligible && c.execution.None?)
    && (r.stage2Label == WaitTrigger <==>
          r.stage1Label == Eligible && c.execution.Some? && !c.execution.value.triggerActive)
    && (r.stage2Label == Weak <==>
          r.stage1Label == Eligible && c.execution.Some? && c.execution.value.triggerActive
          && c.execution.value.score < 12.0)
    && (r.stage2Label == Confirmed <==>
          r.stage1Label == Eligible && c.execution.Some? && c.execution.value.triggerActive
          && 12.0 <= c.execution.value.score)
    && (r.stage2Score.Some? <==> c.execution.Some?)
    && (c.execution.Some? ==> r.stage2Score == Some(c.execution.value.score))
  }

  /** The prioritised states, the most severe one first; a demand for any other state changes nothing. */
  ghost predicate Forced(r: Result, c: Candidate) {
    && (r.finalState == StopTradingNow <==> Demands(c, StopTradingNow))
    && (r.finalState == LockedNoTrade <==> Demands(c, LockedNoTrade) && !Demands(c, StopTradingNow))
    && (r.finalState == NoTrade <==>
          Demands(c, NoTrade) && !Demands(c, StopTradingNow) && !Demands(c, LockedNoTrade))
    && (r.finalState == WaitEmotionalRisk <==>
          && Demands(c, WaitEmotionalRisk)
          && !Demands(c, StopTradingNow) && !Demands(c, LockedNoTrade) && !Demands(c, NoTrade))
    && (r.finalState == WaitFomo <==>
          && Demands(c, WaitFomo) && !Demands(c, WaitEmotionalRisk)
          && !Demands(c, StopTradingNow) && !Demands(c, LockedNoTrade) && !Demands(c, NoTrade))
    && (r.finalState == WaitMtfConflict <==>
          && Demands(c, WaitMtfConflict) && !Demands(c, WaitFomo) && !Demands(c, WaitEmotionalRisk)
          && !Demands(c, StopTradingNow) && !Demands(c, LockedNoTrade) && !Demands(c, NoTrade))
  }

  /** What decides when no prioritised state is demanded. */
  ghost predicate Decided(r: Result, c: Candidate, ahead: bool, unofficial: bool) {
    var hard := ahead || Says(c, HardFail);
    var weak := Says(c, GateStale) || (unofficial && c.mode == Production);
    && (r.finalState == Reject <==>
          Unforced(c) && (hard || (!weak && !Says(c, GateWait) && r.stage1Label != Eligible)))
    && (r.finalState == WaitDataWeak <==> Unforced(c) && !hard && weak)
    && (r.finalState == Wait <==>
          Unforced(c) && !hard && !weak
          && (Says(c, GateWait) || (r.stage1Label == Eligible && r.stage2Label != Confirmed)))
    && (r.finalState == Ready <==>
          Unforced(c) && !hard && !weak && !Says(c, GateWait)
          && r.stage1Label == Eligible && r.stage2Label == Confirmed)
    && r.finalState != PriorityRadar && r.finalState != ShortWatch
  }

  lemma {:induction false} GatesAre(c: Candidate)
    ensures forall o :: AnyOutcome(AllGates(c), o) <==> Says(c, o)
    ensures forall s :: Imposes(AllGates(c), s) <==> Demands(c, s)
  {
    var gates := AllGates(c);
    forall g ensures g in gates <==> HasGate(c, g) {
    }
    forall o ensures AnyOutcome(gates, o) <==> Says(c, o) {
    }
    forall s ensures Imposes(gates, s) <==> Demands(c, s) {
    }
  }

  lemma {:induction false} OverrideIs(c: Candidate)
    ensures GateOverride(AllGates(c)) ==
              if Demands(c, StopTradingNow) then Some(StopTradingNow)
              else if Demands(c, LockedNoTrade) then Some(LockedNoTrade)
              else if Demands(c, NoTrade) then Some(NoTrade)
              else if Demands(c, WaitEmotionalRisk) then Some(WaitEmotionalRisk)
              else if Demands(c, WaitFomo) then Some(WaitFomo)
              else if Demands(c, WaitMtfConflict) then Some(WaitMtfConflict)
              else None
  {
    GatesAre(c);
    var gates := AllGates(c);
    var last := [WaitMtfConflict];
    var fomo := [WaitFomo] + last;
    var emotional := [WaitEmotionalRisk] + fomo;
    var noTrade := [NoTrade] + emotional;
    var locked := [LockedNoTrade] + noTrade;
    assert PRIORITY == [StopTradingNow] + locked;
    assert last == [WaitMtfConflict] + [];
    FirstOf(gates, WaitMtfConflict, []);
    FirstOf(gates, WaitFomo, last);
    FirstOf(gates, WaitEmotionalRisk, fomo);
    FirstOf(gates, NoTrade, emotional);
    FirstOf(gates, LockedNoTrade, noTrade);
    FirstOf(gates, StopTradingNow, locked);
  }

  lemma {:induction false} FirstOf(gates: seq<Gate>, state: FinalState, rest: seq<FinalState>)
    ensures FirstImposed(gates, [state] + rest)
            == if Imposes(gates, state) then Some(state) else FirstImposed(gates, rest)
  {
    assert ([state] + rest)[1..] == rest;
  }

  lemma {:induction false} LabelsExactly(draft: Draft, percentile: real, request: Request)
    ensures var r, c := Finalize(draft, percentile, request), draft.candidate;
      Labelled(r, c, request, draft.pointInTimeFailure) && Executed(r, c)
  {
    GatesAre(draft.candidate);
    PassingLayersCount(draft.layerScores);
  }

  lemma {:induction false} StatesExactly(draft: Draft, percentile: real, request: Request)
    ensures var r, c := Finalize(draft, percentile, request), draft.candidate;
      Forced(r, c) && Decided(r, c, draft.pointInTimeFailure, draft.unofficialEvidence)
  {
    GatesAre(draft.candidate);
    OverrideIs(draft.candidate);
  }

  /**
   The whole result of a candidate.  The labels and the final state are given exactly in the cases listed by
   `Labelled`, `Executed`, `Forced` and `Decided`; the scores follow from the evidence by `ScoredAs`.
   */
  lemma {:induction false} ResultExactly(c: Candidate, request: Request, decay: real -> real)
    requires request.candidates != [] && IsDecay(decay) && AllEvidenceValid(c.evidence)
    ensures var r := ResultFor(c, request, decay);
      && r.symbol == c.symbol
      && ScoredAs(r, c.evidence, ScorerAt(c.asOf, decay))
      && r.penalties == Penalties(c.evidence, ScorerAt(c.asOf, decay))
      && r.passingLayers == |Passed(r.layerScores)|
      && Labelled(r, c, request, LooksAhead(c))
      && Executed(r, c)
      && Forced(r, c)
      && Decided(r, c, LooksAhead(c), LeansOnUnofficial(c))
  {
    var draft := DraftOf(c, decay);
    var percentile := Percentile(ScoresOf(Drafts(request.candidates, decay)), draft.stage1Score);
    DraftFlags(c, decay);
    LabelsExactly(draft, percentile, request);
    StatesExactly(draft, percentile, request);
    PassingLayersCount(draft.layerScores);
    ResultIsScored(c, request, decay);
  }

  lemma {:induction false} ResultIsScored(c: Candidate, request: Request, decay: real -> real)
    requires request.candidates != []
    ensures ScoredAs(ResultFor(c, request, decay), c.evidence, ScorerAt(c.asOf, decay))
  {
    var score := ScorerAt(c.asOf, decay);
    LayerScoredFrom(c.evidence, score, Cause);
    LayerScoredFrom(c.evidence, score, Sponsor);
    LayerScoredFrom(c.evidence, score, Structure);
    LayerScoredFrom(c.evidence, score, Flow);
    CausalLaws.TotalOfFour(LayerScores(c.evidence, score));
  }

  // ---------- symbols of a batch ----------

  /** The same character up to the case of an ASCII letter. */
  predicate SameLetter(a: char, b: char) {
    || a == b
    || ('A' <= a <= 'Z' && b as int == a as int + 32)
    || ('A' <= b <= 'Z' && a as int == b as int + 32)
  }

  ghost predicate SameUpToCase(a: string, b: string) {
    |a| == |b| && forall k :: 0 <= k < |a| ==> SameLetter(a[k], b[k])
  }

  lemma {:induction false} FoldExactly(a: string, b: string)
    ensures Fold(a) == Fold(b) <==> SameUpToCase(a, b)
  {
    if Fold(a) == Fold(b) {
      assert |a| == |Fold(a)| == |b|;
      forall k | 0 <= k < |a| ensures SameLetter(a[k], b[k]) {
        assert Fold(a)[k] == Fold(b)[k];
      }
    }
  }

  /** A batch is refused exactly when two of its symbols differ at most in case. */
  lemma {:induction false} RefusedExactly(candidates: seq<Candidate>)
    ensures UniqueSymbols(candidates) <==>
              forall i, j :: 0 <= i < j < |candidates| ==> !SameUpToCase(candidates[i].symbol, candidates[j].symbol)
  {
    forall i, j | 0 <= i < j < |candidates|
      ensures Fold(candidates[i].symbol) == Fold(candidates[j].symbol) <==>
                SameUpToCase(candidates[i].symbol, candidates[j].symbol)
    {
      FoldExactly(candidates[i].symbol, candidates[j].symbol);
    }
  }
}
