/** How the weight of evidence changes with time: by which factor over any span, from which start, to which cap. */
module CausalAging {
  import opened Products
  import opened CausalEvidence
  import opened CausalDecision

  /** What characterises an exponential: the decay over two spans is the product of the two decays. */
  ghost predicate IsExponential(decay: real -> real) {
    && IsDecay(decay)
    && forall x, y :: 0.0 <= x && 0.0 <= y ==> decay(x + y) == Times(decay(x), decay(y))
  }

  /** The daily rate: the stated one, or that of the signal type; other signal types do not decay. */
  predicate Rate(item: Evidence, rate: real) {
    if item.decayLambda.Some? then rate == item.decayLambda.value
    else
      && (item.signalType == "DELIVERY_PERCENT" ==> rate == 0.15)
      && (item.signalType == "PROMOTER_BUY" ==> rate == 0.04)
      && (item.signalType == "BULK_DEAL" ==> rate == 0.07)
      && (item.signalType == "MF_HOLDING" ==> rate == 0.02)
      && (item.signalType !in {"DELIVERY_PERCENT", "PROMOTER_BUY", "BULK_DEAL", "MF_HOLDING"} ==> rate == 0.0)
  }

  /** The weight at the source date: the stated one, or 0.4 for fund holdings and one for everything else. */
  predicate StartsAt(item: Evidence, weight: real) {
    if item.initialWeight.Some? then weight == item.initialWeight.value
    else weight == (if item.signalType == "MF_HOLDING" then 0.4 else 1.0)
  }

  /** Dated and observed by `asOf`. */
  predicate KnownAt(item: Evidence, asOf: real) {
    item.sourceDate <= asOf && item.observedAt <= asOf
  }

  /** Older than the limit of the item, if it has one. */
  predicate Expired(item: Evidence, asOf: real) {
    item.staleAfterDays.Some? && item.staleAfterDays.value < asOf - item.sourceDate
  }

  lemma {:induction false} SpansAddUp(rate: real, first: real, second: real)
    ensures Times(rate, first + second) == Times(rate, first) + Times(rate, second)
  {
  }

  lemma {:induction false} DecayOverSpans(decay: real -> real, rate: real, first: real, second: real)
    requires IsExponential(decay) && 0.0 <= rate && 0.0 <= first && 0.0 <= second
    ensures decay(Times(rate, first + second)) == Times(decay(Times(rate, first)), decay(Times(rate, second)))
  {
    SpansAddUp(rate, first, second);
    TimesBounds(rate, first);
    TimesBounds(rate, second);
  }

  lemma {:induction false} RateIs(item: Evidence, rate: real)
    ensures Rate(item, rate) <==> rate == LambdaOf(item)
  {
    assert "DELIVERY_PERCENT"[0] != "PROMOTER_BUY"[0] && "BULK_DEAL"[0] != "MF_HOLDING"[0];
  }

  /** Unknown evidence weighs nothing. */
  lemma {:induction false} UnknownWeighsNothing(item: Evidence, asOf: real, decay: real -> real)
    requires !KnownAt(item, asOf)
    ensures Weight(item, asOf, decay) == 0.0
  {
  }

  /** The weight of known evidence: its initial weight decayed over its age, and at most 0.4 once it has expired. */
  lemma {:induction false} KnownWeight(item: Evidence, asOf: real, rate: real, start: real, decay: real -> real)
    requires KnownAt(item, asOf) && Rate(item, rate) && StartsAt(item, start)
    ensures var unexpired := start * decay(rate * (asOf - item.sourceDate));
      Weight(item, asOf, decay) == if Expired(item, asOf) && 0.4 < unexpired then 0.4 else unexpired
  {
    RateIs(item, rate);
    assert Times(rate, asOf - item.sourceDate) == rate * (asOf - item.sourceDate);
    var d := decay(rate * (asOf - item.sourceDate));
    assert Times(start, d) == start * d;
  }

  /**
   Ageing is by one factor: over any span in which the evidence does not expire, its weight is multiplied by the
   decay of that span alone, whatever its age at the start.
   */
  lemma {:induction false} AgeingFactor(item: Evidence, asOf: real, later: real, rate: real, decay: real -> real)
    requires item.Valid() && IsExponential(decay) && Rate(item, rate)
    requires KnownAt(item, asOf) && asOf <= later && !Expired(item, later)
    ensures Weight(item, later, decay) == Times(Weight(item, asOf, decay), decay(Times(rate, later - asOf)))
  {
    RateIs(item, rate);
    var age, span := asOf - item.sourceDate, later - asOf;
    DecayOverSpans(decay, rate, age, span);
    assert later - item.sourceDate == age + span;
    TimesLaws(InitialWeightOf(item), decay(Times(rate, age)), decay(Times(rate, span)));
  }

  /** Evidence known from its source date on starts there with its initial weight. */
  lemma {:induction false} StartingWeight(item: Evidence, start: real, decay: real -> real)
    requires item.Valid() && IsDecay(decay) && item.observedAt <= item.sourceDate && StartsAt(item, start)
    ensures Weight(item, item.sourceDate, decay) == start
  {
    assert Times(LambdaOf(item), 0.0) == 0.0;
    assert Times(start, 1.0) == start;
  }

  /** What a draft counts of an item: its contribution times its weight, with the sign of the contribution. */
  lemma {:induction false} CountedContribution(item: Evidence, asOf: real, decay: real -> real)
    requires item.Valid() && IsDecay(decay)
    ensures ScorerAt(asOf, decay)(item) == item.contribution * Weight(item, asOf, decay)
    ensures !KnownAt(item, asOf) ==> ScorerAt(asOf, decay)(item) == 0.0
    ensures 0.0 < ScorerAt(asOf, decay)(item) <==> 0.0 < item.contribution && KnownAt(item, asOf)
  {
    AdjustedBounds(item, asOf, decay);
  }
}
