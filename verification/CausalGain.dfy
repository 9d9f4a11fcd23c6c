/** What one more positive item does to the stage-1 score, exactly. */
module CausalGain {
  import opened Common
  import opened Ordering
  import opened Products
  import opened Sums
  import opened CausalEvidence
  import opened CausalScoring
  import opened CausalLaws
  import opened CausalKeyCost

  // ---------- what the item adds to the charges ----------

  /** What a key of the item adds to the charge between its layer and another one, read from the evidence before it. */
  function KeyGrowth(evidence: seq<Evidence>, e: Evidence, score: Scorer, other: Layer): string -> real {
    (key: string) =>
      var own, shared := Strongest(evidence, score, e.layer, key), Strongest(evidence, score, other, key);
      0.15 * (Min(Max(own, score(e)), shared) - Min(own, shared))
  }

  function OwnKeys(e: Evidence): seq<string> {
    SortDistinct(StringLe, e.rawInputKeys)
  }

  /** The growth of the charge between the item's layer and another one: the sum over its distinct keys. */
  function Growth(evidence: seq<Evidence>, e: Evidence, score: Scorer, other: Layer): real {
    SumBy(KeyGrowth(evidence, e, score, other), OwnKeys(e))
  }

  /** The growth of the penalty of the item's own layer. */
  function OwnGrowth(evidence: seq<Evidence>, e: Evidence, score: Scorer): real {
    var m := Others(e.layer);
    Growth(evidence, e, score, m.0) + Growth(evidence, e, score, m.1) + Growth(evidence, e, score, m.2)
  }

  /** The most the distinct keys of an item can add to the charge of one pair. */
  function KeyCost(e: Evidence, score: Scorer): real {
    Times(0.15 * score(e), |OwnKeys(e)| as real)
  }

  lemma {:induction false} KeyGrowthBounds(evidence: seq<Evidence>, e: Evidence, score: Scorer, other: Layer,
                                           key: string)
    requires 0.0 < score(e)
    ensures 0.0 <= KeyGrowth(evidence, e, score, other)(key) <= 0.15 * score(e)
  {
  }

  lemma {:induction false} GrowthBounds(evidence: seq<Evidence>, e: Evidence, score: Scorer, other: Layer)
    requires 0.0 < score(e)
    ensures 0.0 <= Growth(evidence, e, score, other) <= KeyCost(e, score)
  {
    var keys := OwnKeys(e);
    var zero, most := (key: string) => 0.0, (key: string) => 0.15 * score(e);
    forall i | 0 <= i < |keys|
      ensures zero(keys[i]) <= KeyGrowth(evidence, e, score, other)(keys[i]) <= most(keys[i])
    {
      KeyGrowthBounds(evidence, e, score, other, keys[i]);
    }
    SumByAtMost(zero, KeyGrowth(evidence, e, score, other), keys);
    SumByAtMost(KeyGrowth(evidence, e, score, other), most, keys);
    SumByConstant(zero, 0.0, keys);
    SumByConstant(most, 0.15 * score(e), keys);
    TimesBounds(0.0, |keys| as real);
  }

  lemma {:induction false} KeyChargeGrows(evidence: seq<Evidence>, e: Evidence, score: Scorer, other: Layer,
                                          key: string)
    requires 0.0 < score(e) && other != e.layer
    ensures KeyCharge(evidence + [e], score, e.layer, other)(key)
            == KeyCharge(evidence, score, e.layer, other)(key)
               + if key in e.rawInputKeys then KeyGrowth(evidence, e, score, other)(key) else 0.0
  {
    StrongestSnoc(evidence, e, score, e.layer, key);
    StrongestSnoc(evidence, e, score, other, key);
  }

  /** The item adds its growth to the charge between its layer and another one. */
  lemma {:induction false} OwnPairGrows(evidence: seq<Evidence>, e: Evidence, score: Scorer, other: Layer)
    requires 0.0 < score(e) && other != e.layer
    ensures PairCharge(evidence + [e], score, e.layer, other, SortedKeys(evidence + [e]))
            == PairCharge(evidence, score, e.layer, other, SortedKeys(evidence)) + Growth(evidence, e, score, other)
  {
    KeysGrow(evidence, e);
    var keys, own := SortedKeys(evidence + [e]), OwnKeys(e);
    PairChargeOver(evidence, score, e.layer, other, keys);
    var before, after := KeyCharge(evidence, score, e.layer, other), KeyCharge(evidence + [e], score, e.layer, other);
    var named := (key: string) => if key in e.rawInputKeys then KeyGrowth(evidence, e, score, other)(key) else 0.0;
    forall i | 0 <= i < |keys| ensures after(keys[i]) == before(keys[i]) + named(keys[i]) {
      KeyChargeGrows(evidence, e, score, other, keys[i]);
    }
    SumByAdds(before, named, after, keys);
    SumBySupport(named, own, keys);
    assert forall i :: 0 <= i < |own| ==> own[i] in own;
    SumByEqual(named, KeyGrowth(evidence, e, score, other), own);
  }

  lemma {:induction false} PairGrows(evidence: seq<Evidence>, e: Evidence, score: Scorer, layer: Layer, other: Layer)
    requires 0.0 < score(e) && layer != other && layer != e.layer
    ensures PairCharge(evidence + [e], score, layer, other, SortedKeys(evidence + [e]))
            == PairCharge(evidence, score, layer, other, SortedKeys(evidence))
               + if other == e.layer then Growth(evidence, e, score, layer) else 0.0
  {
    if other == e.layer {
      OwnPairGrows(evidence, e, score, layer);
      PairChargeSymmetric(evidence, score, layer, other, SortedKeys(evidence));
      PairChargeSymmetric(evidence + [e], score, layer, other, SortedKeys(evidence + [e]));
    } else {
      OtherPairUnchanged(evidence, e, score, layer, other);
    }
  }

  lemma {:induction false} PenaltyGrows(evidence: seq<Evidence>, e: Evidence, score: Scorer, layer: Layer)
    requires 0.0 < score(e)
    ensures LayerPenalty(evidence + [e], score, layer)
            == LayerPenalty(evidence, score, layer)
               + if layer == e.layer then OwnGrowth(evidence, e, score) else Growth(evidence, e, score, layer)
  {
    var m := Others(layer);
    LayerPenaltyIs(evidence, score, layer);
    LayerPenaltyIs(evidence + [e], score, layer);
    if layer == e.layer {
      OwnPairGrows(evidence, e, score, m.0);
      OwnPairGrows(evidence, e, score, m.1);
      OwnPairGrows(evidence, e, score, m.2);
    } else {
      PairGrows(evidence, e, score, layer, m.0);
      PairGrows(evidence, e, score, layer, m.1);
      PairGrows(evidence, e, score, layer, m.2);
    }
  }

  // ---------- what it does to the layer scores ----------

  /** The score of the item's own layer once the item counts, read from the evidence before it. */
  function OwnScoreWith(evidence: seq<Evidence>, e: Evidence, score: Scorer): real {
    var raw := Min(Max(RawScore(evidence, score, e.layer) + score(e), 0.0), Maximum(e.layer));
    Max(raw - LayerPenalty(evidence, score, e.layer) - OwnGrowth(evidence, e, score), 0.0)
  }

  /** What another layer loses: the growth of its charge, but never more than it has. */
  function Loss(evidence: seq<Evidence>, e: Evidence, score: Scorer, layer: Layer): real {
    Min(Growth(evidence, e, score, layer), FinalScore(evidence, score, layer))
  }

  function OthersLoss(evidence: seq<Evidence>, e: Evidence, score: Scorer): real {
    var m := Others(e.layer);
    Loss(evidence, e, score, m.0) + Loss(evidence, e, score, m.1) + Loss(evidence, e, score, m.2)
  }

  lemma {:induction false} OwnScoreIs(evidence: seq<Evidence>, e: Evidence, score: Scorer)
    requires 0.0 < score(e)
    ensures FinalScore(evidence + [e], score, e.layer) == OwnScoreWith(evidence, e, score)
  {
    RawScoreSnoc(evidence, e, score, e.layer);
    PenaltyGrows(evidence, e, score, e.layer);
  }

  lemma {:induction false} OtherScoreIs(evidence: seq<Evidence>, e: Evidence, score: Scorer, layer: Layer)
    requires 0.0 < score(e) && layer != e.layer
    ensures FinalScore(evidence + [e], score, layer)
            == FinalScore(evidence, score, layer) - Loss(evidence, e, score, layer)
  {
    RawScoreSnoc(evidence, e, score, layer);
    PenaltyGrows(evidence, e, score, layer);
    PenaltiesWellFormed(evidence, score);
    GrowthBounds(evidence, e, score, layer);
  }

  lemma {:induction false} Stage1AroundLayer(evidence: seq<Evidence>, score: Scorer, layer: Layer)
    ensures Stage1Score(evidence, score)
            == FinalScore(evidence, score, layer) + FinalScore(evidence, score, Others(layer).0)
               + FinalScore(evidence, score, Others(layer).1) + FinalScore(evidence, score, Others(layer).2)
  {
    Stage1IsSum(evidence, score);
  }

  lemma {:induction false} AppendedEvidenceEffect(evidence: seq<Evidence>, e: Evidence, score: Scorer)
    requires 0.0 < score(e)
    ensures Stage1Score(evidence + [e], score)
            == Stage1Score(evidence, score) + OwnScoreWith(evidence, e, score) - FinalScore(evidence, score, e.layer)
               - OthersLoss(evidence, e, score)
  {
    Stage1AroundLayer(evidence, score, e.layer);
    Stage1AroundLayer(evidence + [e], score, e.layer);
    OwnScoreIs(evidence, e, score);
    OtherScoreIs(evidence, e, score, Others(e.layer).0);
    OtherScoreIs(evidence, e, score, Others(e.layer).1);
    OtherScoreIs(evidence, e, score, Others(e.layer).2);
  }

  // ---------- the effect on the stage-1 score ----------

  /**
   The exact effect of one more positive item, wherever it stands in the list and whatever the layers are at: its own
   layer is rescored, and every other layer loses the growth of its charge, as far as it has something to lose.  So the
   item does not lower the score if and only if its own layer gains at least what the others lose.
   */
  lemma {:induction false} EvidenceEffect(evidence: seq<Evidence>, e: Evidence, more: seq<Evidence>, score: Scorer)
    requires multiset(more) == multiset(evidence) + multiset{e}
    requires 0.0 < score(e)
    ensures Stage1Score(more, score)
            == Stage1Score(evidence, score) + OwnScoreWith(evidence, e, score) - FinalScore(evidence, score, e.layer)
               - OthersLoss(evidence, e, score)
    ensures Stage1Score(evidence, score) <= Stage1Score(more, score) <==>
              OthersLoss(evidence, e, score) <= OwnScoreWith(evidence, e, score) - FinalScore(evidence, score, e.layer)
  {
    assert multiset(evidence + [e]) == multiset(more);
    ScoringIgnoresOrder(evidence + [e], more, score);
    AppendedEvidenceEffect(evidence, e, score);
  }

  /** The item's layer is not driven to zero by its penalties and stays under its cap with the item. */
  predicate HasRoom(evidence: seq<Evidence>, e: Evidence, score: Scorer) {
    && LayerPenalty(evidence, score, e.layer) <= RawScore(evidence, score, e.layer)
    && RawScore(evidence, score, e.layer) + score(e) <= Maximum(e.layer)
  }

  /** What the keys of the item cost all four layers together. */
  function TotalCost(evidence: seq<Evidence>, e: Evidence, score: Scorer): real {
    Min(OwnGrowth(evidence, e, score), FinalScore(evidence, score, e.layer) + score(e)) + OthersLoss(evidence, e, score)
  }

  lemma {:induction false} RoomForTheItem(evidence: seq<Evidence>, e: Evidence, score: Scorer)
    requires 0.0 < score(e) && HasRoom(evidence, e, score)
    ensures OwnScoreWith(evidence, e, score)
            == FinalScore(evidence, score, e.layer) + score(e)
               - Min(OwnGrowth(evidence, e, score), FinalScore(evidence, score, e.layer) + score(e))
  {
    PenaltiesWellFormed(evidence, score);
    var raw, penalty := RawScore(evidence, score, e.layer), LayerPenalty(evidence, score, e.layer);
    assert FinalScore(evidence, score, e.layer) == raw - penalty;
  }

  /**
   In a layer with room the item brings its contribution less the cost of its keys; it does not lower the score if and
   only if that cost is at most the contribution.
   */
  lemma {:induction false} EvidencePaysExactly(evidence: seq<Evidence>, e: Evidence, more: seq<Evidence>, score: Scorer)
    requires multiset(more) == multiset(evidence) + multiset{e}
    requires 0.0 < score(e) && HasRoom(evidence, e, score)
    ensures Stage1Score(more, score) == Stage1Score(evidence, score) + score(e) - TotalCost(evidence, e, score)
    ensures Stage1Score(evidence, score) <= Stage1Score(more, score) <==> TotalCost(evidence, e, score) <= score(e)
  {
    EvidenceEffect(evidence, e, more, score);
    RoomForTheItem(evidence, e, score);
  }

  lemma {:induction false} TotalCostBound(evidence: seq<Evidence>, e: Evidence, score: Scorer)
    requires 0.0 < score(e)
    ensures TotalCost(evidence, e, score) <= 6.0 * KeyCost(e, score)
  {
    var m := Others(e.layer);
    GrowthBounds(evidence, e, score, m.0);
    GrowthBounds(evidence, e, score, m.1);
    GrowthBounds(evidence, e, score, m.2);
  }

  lemma {:induction false} KeyCostOfFewKeys(e: Evidence, score: Scorer)
    ensures |OwnKeys(e)| == 0 ==> KeyCost(e, score) == 0.0
    ensures |OwnKeys(e)| == 1 ==> KeyCost(e, score) == 0.15 * score(e)
  {
  }

  /**
   In particular the item raises the score by at least its contribution less nine tenths of it for each of its
   distinct raw keys: by all of it without keys, by a tenth of it with one.
   */
  lemma {:induction false} EvidenceGain(evidence: seq<Evidence>, e: Evidence, more: seq<Evidence>, score: Scorer)
    requires multiset(more) == multiset(evidence) + multiset{e}
    requires 0.0 < score(e) && HasRoom(evidence, e, score)
    ensures Stage1Score(evidence, score) + score(e) - 6.0 * KeyCost(e, score) <= Stage1Score(more, score)
    ensures |OwnKeys(e)| == 0 ==> Stage1Score(evidence, score) + score(e) <= Stage1Score(more, score)
    ensures |OwnKeys(e)| == 1 ==> Stage1Score(evidence, score) + score(e) / 10.0 <= Stage1Score(more, score)
  {
    EvidencePaysExactly(evidence, e, more, score);
    TotalCostBound(evidence, e, score);
    KeyCostOfFewKeys(e, score);
  }
}
