/** Evidence of the causal engine and its decay with age (`_evaluate_evidence`). */
module CausalEvidence {
  import opened Common
  import opened Products

  datatype Layer = Cause | Sponsor | Structure | Flow

  /** The layers in the order of the enumeration. */
  const LAYERS: seq<Layer> := [Cause, Sponsor, Structure, Flow]

  datatype DataTrust =
    | Official | OfficialOrLicensed | OfficialFreeEod
    | OpenSourceUnofficial | UnofficialWrapper | UnofficialTemp | SyntheticTest

  predicate Unofficial(trust: DataTrust) {
    trust.OpenSourceUnofficial? || trust.UnofficialWrapper? || trust.UnofficialTemp? || trust.SyntheticTest?
  }

  /** Times are in days; `signalType` is in upper case; `rawInputKeys` are the trimmed, case-folded, non-blank keys. */
  datatype Evidence = Evidence(
    id: string,
    layer: Layer,
    signalType: string,
    contribution: real,
    sourceDate: real,
    observedAt: real,
    trust: DataTrust,
    rawInputKeys: seq<string>,
    decayLambda: Option<real>,
    initialWeight: Option<real>,
    staleAfterDays: Option<real>)
  {
    /** The bounds the input model enforces on what decay reads. */
    predicate Valid() {
      && -10.0 <= contribution <= 10.0
      && (decayLambda.Some? ==> 0.0 <= decayLambda.value <= 5.0)
      && (initialWeight.Some? ==> 0.0 < initialWeight.value <= 1.0)
      && (staleAfterDays.Some? ==> 0.0 < staleAfterDays.value)
    }
  }

  ghost predicate AllEvidenceValid(evidence: seq<Evidence>) {
    forall i :: 0 <= i < |evidence| ==> evidence[i].Valid()
  }

  datatype Freshness = Fresh | Stale | Future

  /** What is used of `x => exp(-x)`: one at zero, positive, never rising. */
  ghost predicate IsDecay(decay: real -> real) {
    && decay(0.0) == 1.0
    && (forall x :: 0.0 <= x ==> 0.0 < decay(x))
    && (forall x, y :: 0.0 <= x <= y ==> decay(y) <= decay(x))
  }

  function DefaultLambda(signalType: string): real {
    if signalType == "DELIVERY_PERCENT" then 0.15
    else if signalType == "PROMOTER_BUY" then 0.04
    else if signalType == "BULK_DEAL" then 0.07
    else if signalType == "MF_HOLDING" then 0.02
    else 0.0
  }

  function LambdaOf(item: Evidence): real {
    if item.decayLambda.Some? then item.decayLambda.value else DefaultLambda(item.signalType)
  }

  function InitialWeightOf(item: Evidence): real {
    if item.initialWeight.Some? then item.initialWeight.value
    else if item.signalType == "MF_HOLDING" then 0.4
    else 1.0
  }

  function Age(item: Evidence, asOf: real): real { asOf - item.sourceDate }

  function FreshnessOf(item: Evidence, asOf: real): Freshness {
    if Age(item, asOf) < 0.0 || asOf < item.observedAt then Future
    else if item.staleAfterDays.Some? && item.staleAfterDays.value < Age(item, asOf) then Stale
    else Fresh
  }

  function Weight(item: Evidence, asOf: real, decay: real -> real): real {
    if FreshnessOf(item, asOf) == Future then 0.0
    else
      var weight := Times(InitialWeightOf(item), decay(Times(LambdaOf(item), Max(Age(item, asOf), 0.0))));
      if FreshnessOf(item, asOf) == Stale then Min(weight, 0.4) else weight
  }

  function Adjusted(item: Evidence, asOf: real, decay: real -> real): real {
    Times(item.contribution, Weight(item, asOf, decay))
  }

  lemma {:induction false} TimesBounds(x: real, y: real)
    requires 0.0 <= x && 0.0 <= y
    ensures 0.0 <= Times(x, y)
    ensures y <= 1.0 ==> Times(x, y) <= x
    ensures 0.0 < x && 0.0 < y ==> 0.0 < Times(x, y)
  {
    if y <= 1.0 {
      assert 0.0 <= x * (1.0 - y);
    }
  }

  /** Evidence from the future has no weight; all other evidence has a positive weight of at most one. */
  lemma {:induction false} WeightBounds(item: Evidence, asOf: real, decay: real -> real)
    requires item.Valid() && IsDecay(decay)
    ensures 0.0 <= Weight(item, asOf, decay) <= InitialWeightOf(item) <= 1.0
    ensures Weight(item, asOf, decay) == 0.0 <==> FreshnessOf(item, asOf) == Future
    ensures FreshnessOf(item, asOf) == Stale ==> Weight(item, asOf, decay) <= 0.4
  {
    var age := Max(Age(item, asOf), 0.0);
    TimesBounds(LambdaOf(item), age);
    var d := decay(Times(LambdaOf(item), age));
    TimesBounds(InitialWeightOf(item), d);
  }

  /** Evidence once seen loses weight as time goes on, and never becomes future evidence again. */
  lemma {:induction false} WeightFallsWithAge(item: Evidence, asOf: real, later: real, decay: real -> real)
    requires item.Valid() && IsDecay(decay)
    requires asOf <= later && FreshnessOf(item, asOf) != Future
    ensures FreshnessOf(item, later) != Future
    ensures Weight(item, later, decay) <= Weight(item, asOf, decay)
  {
    var young, older := Age(item, asOf), Age(item, later);
    TimesBounds(LambdaOf(item), young);
    TimesOrder(young, older, LambdaOf(item));
    TimesOrder(decay(Times(LambdaOf(item), older)), decay(Times(LambdaOf(item), young)), InitialWeightOf(item));
  }

  /** Decay never flips the sign of a contribution and never enlarges it. */
  lemma {:induction false} AdjustedBounds(item: Evidence, asOf: real, decay: real -> real)
    requires item.Valid() && IsDecay(decay)
    ensures 0.0 < Adjusted(item, asOf, decay) <==> 0.0 < item.contribution && FreshnessOf(item, asOf) != Future
    ensures 0.0 <= item.contribution ==> 0.0 <= Adjusted(item, asOf, decay) <= item.contribution
    ensures item.contribution <= 0.0 ==> item.contribution <= Adjusted(item, asOf, decay) <= 0.0
    ensures FreshnessOf(item, asOf) == Future ==> Adjusted(item, asOf, decay) == 0.0
  {
    WeightBounds(item, asOf, decay);
    var w := Weight(item, asOf, decay);
    if 0.0 <= item.contribution {
      TimesBounds(item.contribution, w);
    } else {
      TimesBounds(-item.contribution, w);
      assert Times(-item.contribution, w) == -Times(item.contribution, w);
    }
  }
}
