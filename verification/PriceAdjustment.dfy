/**
 Price factors of corporate actions and the rewriting of a candle history at ingestion
 (`_action_price_factor` and `apply_reconciled_actions_at_ingestion`).
 */
module PriceAdjustment {
  import opened Common
  import opened CorporateActions
  import opened Products

  /** Index of the candle `max(candles before the date, key=date)` picks: the first of the latest. */
  function ReferenceIndex(candles: seq<Candle>, before: int): (r: Option<nat>)
    ensures r.None? ==> forall i :: 0 <= i < |candles| ==> before <= candles[i].date
    ensures r.Some? ==> IsReference(candles, before, r.value)
  {
    if candles == [] then None
    else
      var n := |candles| - 1;
      var earlier := ReferenceIndex(candles[..n], before);
      if candles[n].date < before && (earlier.None? || candles[earlier.value].date < candles[n].date)
      then Some(n)
      else earlier
  }

  ghost predicate IsReference(candles: seq<Candle>, before: int, r: nat) {
    && r < |candles|
    && candles[r].date < before
    && forall i :: 0 <= i < |candles| && candles[i].date < before ==>
         candles[i].date <= candles[r].date && (i < r ==> candles[i].date < candles[r].date)
  }

  /** The close a reference candle had before it was rewritten. */
  function ReferenceClose(candles: seq<Candle>, before: int): (r: Option<real>)
    requires AllDivisible(candles)
    ensures r.Some? ==> r.value != 0.0
  {
    match ReferenceIndex(candles, before)
    case None => None
    case Some(i) => Some(candles[i].RecoveredClose())
  }

  function FactorFromReference(action: Action, reference: real): Option<real>
    requires reference != 0.0 && RatioDivisible(action)
  {
    if action.key.actionClass == Dividend && action.cashAmount.Some? then
      var factor := Quotient(reference - action.cashAmount.value, reference);
      if 0.0 < factor < 1.0 then Some(factor) else None
    else if action.key.actionClass == Rights && action.ratioNumerator.Some?
            && action.ratioDenominator.Some? && action.offerPrice.Some? then
      var theoretical := Quotient(
        Times(reference, action.ratioDenominator.value) + Times(action.offerPrice.value, action.ratioNumerator.value),
        action.ratioDenominator.value + action.ratioNumerator.value);
      var factor := Quotient(theoretical, reference);
      if 0.0 < factor then Some(factor) else None
    else
      None
  }

  function PriceFactor(action: Action, candles: seq<Candle>): Option<real>
    requires AllDivisible(candles) && RatioDivisible(action)
  {
    if action.adjustmentFactor.Some? then action.adjustmentFactor
    else
      match ReferenceClose(candles, action.EffectiveDate())
      case None => None
      case Some(reference) => FactorFromReference(action, reference)
  }

  // ---------- which actions concern a candle ----------

  function LastDate(candles: seq<Candle>): (d: int)
    requires candles != []
    ensures forall i :: 0 <= i < |candles| ==> candles[i].date <= d
    ensures exists i :: 0 <= i < |candles| && candles[i].date == d
  {
    var n := |candles| - 1;
    if n == 0 then candles[0].date
    else
      var d := LastDate(candles[..n]);
      assert forall i :: 0 <= i < n ==> candles[..n][i] == candles[i];
      if d < candles[n].date then candles[n].date else d
  }

  function FirstDate(candles: seq<Candle>): (d: int)
    requires candles != []
    ensures forall i :: 0 <= i < |candles| ==> d <= candles[i].date
    ensures exists i :: 0 <= i < |candles| && candles[i].date == d
  {
    var n := |candles| - 1;
    if n == 0 then candles[0].date
    else
      var d := FirstDate(candles[..n]);
      assert forall i :: 0 <= i < n ==> candles[..n][i] == candles[i];
      if candles[n].date < d then candles[n].date else d
  }

  /** Price-adjusting actions in force up to a date, in the given order. */
  function Relevant(actions: seq<Action>, lastDate: int): seq<Action>
  {
    if actions == [] then []
    else
      var n := |actions| - 1;
      var earlier := Relevant(actions[..n], lastDate);
      if Matters(actions[n], lastDate) then earlier + [actions[n]] else earlier
  }

  predicate Matters(action: Action, lastDate: int) {
    action.EffectiveDate() <= lastDate && action.state != Cancelled && action.AdjustsPrices()
  }

  /** The actions that take effect after a date. */
  function After(actions: seq<Action>, date: int): seq<Action>
  {
    if actions == [] then []
    else
      var n := |actions| - 1;
      var earlier := After(actions[..n], date);
      if date < actions[n].EffectiveDate() then earlier + [actions[n]] else earlier
  }

  lemma {:induction false} RelevantMembers(actions: seq<Action>, lastDate: int, a: Action)
    ensures a in Relevant(actions, lastDate) <==> a in actions && Matters(a, lastDate)
  {
    if actions != [] {
      var n := |actions| - 1;
      RelevantMembers(actions[..n], lastDate, a);
      assert a in actions <==> a in actions[..n] || a == actions[n];
    }
  }

  lemma {:induction false} AfterMembers(actions: seq<Action>, date: int, a: Action)
    ensures a in After(actions, date) <==> a in actions && date < a.EffectiveDate()
  {
    if actions != [] {
      var n := |actions| - 1;
      AfterMembers(actions[..n], date, a);
      assert a in actions <==> a in actions[..n] || a == actions[n];
    }
  }

  // ---------- factors ----------

  type FactorTable = map<ActionKey, Option<real>>

  function FactorsOf(actions: seq<Action>, candles: seq<Candle>): FactorTable
    requires AllDivisible(candles) && RatiosDivisible(actions)
  {
    if actions == [] then map[]
    else
      var n := |actions| - 1;
      FactorsOf(actions[..n], candles)[actions[n].key := PriceFactor(actions[n], candles)]
  }

  /** The entry of an action; the passes look up only actions the table was built from. */
  function FactorAt(table: FactorTable, action: Action): Option<real> {
    if action.key in table then table[action.key] else None
  }

  /** `factors[key] or 1.0`: Python counts a zero factor as missing. */
  function FactorOrOne(factor: Option<real>): (r: real)
    ensures r != 0.0
  {
    if factor.None? || factor.value == 0.0 then 1.0 else factor.value
  }

  /** The factors of the given actions, one each. */
  function FactorList(prior: seq<Action>, table: FactorTable): (r: seq<real>)
    ensures |r| == |prior|
    ensures forall i :: 0 <= i < |r| ==> r[i] != 0.0
  {
    seq(|prior|, i requires 0 <= i < |prior| => FactorOrOne(FactorAt(table, prior[i])))
  }

  /** The factors of splits and bonuses; the other actions leave the volume alone. */
  function VolumeFactorList(prior: seq<Action>, table: FactorTable): (r: seq<real>)
    ensures |r| == |prior|
    ensures forall i :: 0 <= i < |r| ==> r[i] != 0.0
  {
    seq(|prior|, i requires 0 <= i < |prior| =>
      if prior[i].RescalesVolume() then FactorOrOne(FactorAt(table, prior[i])) else 1.0)
  }

  function CumulativeFactor(prior: seq<Action>, table: FactorTable): (r: real)
    ensures r != 0.0
  {
    ProductNonZero(FactorList(prior, table));
    Product(FactorList(prior, table))
  }

  function VolumeFactor(prior: seq<Action>, table: FactorTable): (r: real)
    ensures r != 0.0
  {
    ProductNonZero(VolumeFactorList(prior, table));
    Product(VolumeFactorList(prior, table))
  }

  predicate Blocks(action: Action, table: FactorTable)
  {
    action.state != Reconciled || FactorAt(table, action).None?
  }

  /** Some action that concerns the candle is not reconciled or has no factor. */
  predicate HeldBack(prior: seq<Action>, table: FactorTable)
  {
    exists a :: a in prior && Blocks(a, table)
  }

  // ---------- rewriting ----------

  /** Prices move with the factor, the volume against the factor of splits and bonuses. */
  function Scaled(candle: Candle, factor: real, volumeFactor: real): Candle
    requires volumeFactor != 0.0
  {
    candle.(
      open := Times(candle.open, factor),
      high := Times(candle.high, factor),
      low := Times(candle.low, factor),
      close := Times(candle.close, factor),
      volume := Quotient(candle.volume, volumeFactor),
      status := Adjusted,
      factor := factor)
  }

  function Rewritten(candle: Candle, relevant: seq<Action>, table: FactorTable): (r: Candle)
    ensures r.date == candle.date
    ensures candle.Divisible() ==> r.Divisible()
  {
    var prior := After(relevant, candle.date);
    if HeldBack(prior, table) then
      candle.(status := Unadjusted, factor := 1.0)
    else if prior != [] && candle.status != Adjusted then
      Scaled(candle, CumulativeFactor(prior, table), VolumeFactor(prior, table))
    else if prior != [] then
      candle
    else
      candle.(status := if candle.status == Adjusted then Adjusted else NotRequired)
  }

  /** Every candle rewritten, in the given order. */
  function RewrittenEach(candles: seq<Candle>, relevant: seq<Action>, table: FactorTable): (out: seq<Candle>)
    ensures |out| == |candles|
    ensures AllDivisible(candles) ==> AllDivisible(out)
  {
    if candles == [] then []
    else
      var n := |candles| - 1;
      RewrittenEach(candles[..n], relevant, table) + [Rewritten(candles[n], relevant, table)]
  }

  lemma {:induction false} RewrittenEachAt(candles: seq<Candle>, relevant: seq<Action>, table: FactorTable, i: nat)
    requires i < |candles|
    ensures RewrittenEach(candles, relevant, table)[i] == Rewritten(candles[i], relevant, table)
  {
    if i < |candles| - 1 {
      RewrittenEachAt(candles[..|candles| - 1], relevant, table, i);
    }
  }

  function Applied(candles: seq<Candle>, actions: seq<Action>): (out: seq<Candle>)
    requires AllDivisible(candles) && RatiosDivisible(actions)
    ensures |out| == |candles| && AllDivisible(out)
  {
    if candles == [] then []
    else
      var relevant := Relevant(actions, LastDate(candles));
      if relevant == [] then candles
      else
        RelevantRatios(actions, LastDate(candles));
        var table := FactorsOf(relevant, candles);
        RewrittenEach(candles, relevant, table)
  }

  lemma {:induction false} RelevantRatios(actions: seq<Action>, lastDate: int)
    requires RatiosDivisible(actions)
    ensures RatiosDivisible(Relevant(actions, lastDate))
  {
    forall a | a in Relevant(actions, lastDate) ensures RatioDivisible(a) {
      RelevantMembers(actions, lastDate, a);
    }
  }

  lemma {:induction false} CumulativeStep(prior: seq<Action>, k: nat, table: FactorTable)
    requires k < |prior|
    ensures var f := FactorOrOne(FactorAt(table, prior[k]));
      && CumulativeFactor(prior[..k + 1], table) == Times(CumulativeFactor(prior[..k], table), f)
      && VolumeFactor(prior[..k + 1], table)
         == if prior[k].RescalesVolume() then Times(VolumeFactor(prior[..k], table), f)
            else VolumeFactor(prior[..k], table)
  {
    var f := FactorOrOne(FactorAt(table, prior[k]));
    var g := if prior[k].RescalesVolume() then f else 1.0;
    assert FactorList(prior[..k + 1], table) == FactorList(prior[..k], table) + [f];
    assert VolumeFactorList(prior[..k + 1], table) == VolumeFactorList(prior[..k], table) + [g];
    ProductSnoc(FactorList(prior[..k], table), f);
    ProductSnoc(VolumeFactorList(prior[..k], table), g);
    TimesLaws(VolumeFactor(prior[..k], table), 1.0, 1.0);
  }

  /** The inner loop of both passes. */
  method AccumulateFactors(prior: seq<Action>, factors: FactorTable) returns (factor: real, volumeFactor: real)
    ensures factor == CumulativeFactor(prior, factors)
    ensures volumeFactor == VolumeFactor(prior, factors)
  {
    factor, volumeFactor := 1.0, 1.0;
    for k := 0 to |prior|
      invariant factor == CumulativeFactor(prior[..k], factors)
      invariant volumeFactor == VolumeFactor(prior[..k], factors)
    {
      CumulativeStep(prior, k, factors);
      var actionFactor := FactorOrOne(FactorAt(factors, prior[k]));
      factor := Times(factor, actionFactor);
      if prior[k].RescalesVolume() {
        volumeFactor := Times(volumeFactor, actionFactor);
      }
    }
    assert prior[..|prior|] == prior;
  }

  /** The body of the ingestion loop for one candle. */
  method RewriteCandle(candle: Candle, relevant: seq<Action>, factors: FactorTable) returns (r: Candle)
    ensures r == Rewritten(candle, relevant, factors)
  {
    var prior := After(relevant, candle.date);
    var unresolved := exists a :: a in prior && Blocks(a, factors);
    if unresolved {
      return candle.(status := Unadjusted, factor := 1.0);
    }
    var factor, volumeFactor := AccumulateFactors(prior, factors);
    if prior != [] && candle.status != Adjusted {
      r := Scaled(candle, factor, volumeFactor);
    } else if prior != [] {
      r := candle;
    } else {
      r := candle.(status := if candle.status == Adjusted then Adjusted else NotRequired);
    }
  }

  /** The ingestion loop: output is appended candle by candle. */
  method RewriteAll(candles: seq<Candle>, relevant: seq<Action>, factors: FactorTable) returns (output: seq<Candle>)
    ensures output == RewrittenEach(candles, relevant, factors)
  {
    output := [];
    for i := 0 to |candles|
      invariant output == RewrittenEach(candles[..i], relevant, factors)
    {
      assert candles[..i + 1][..i] == candles[..i];
      var rewritten := RewriteCandle(candles[i], relevant, factors);
      output := output + [rewritten];
    }
    assert candles[..|candles|] == candles;
  }

  /** The ingestion pass: the factors come from the input candles only. */
  method ApplyAtIngestion(candles: seq<Candle>, actions: seq<Action>) returns (output: seq<Candle>)
    requires AllDivisible(candles) && RatiosDivisible(actions)
    ensures output == Applied(candles, actions)
  {
    if candles == [] {
      return [];
    }
    var relevant := Relevant(actions, LastDate(candles));
    if relevant == [] {
      return candles;
    }
    RelevantRatios(actions, LastDate(candles));
    var factors := FactorsOf(relevant, candles);
    output := RewriteAll(candles, relevant, factors);
  }
}
