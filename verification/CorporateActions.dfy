/** The entities of `corporate_actions.py`: reconciled actions and price candles. */
module CorporateActions {
  import opened Common
  import opened Products

  datatype ActionClass = Split | Bonus | Dividend | Rights | Merger | Demerger | Other

  datatype ReconciliationState = Reconciled | Conflict | Cancelled | WaitDetails

  /** The triple the source formats into the string `SYMBOL:CLASS:date`. */
  datatype ActionKey = ActionKey(symbol: string, actionClass: ActionClass, effectiveDate: int)

  datatype Action = Action(
    key: ActionKey,
    state: ReconciliationState,
    adjustmentFactor: Option<real>,
    ratioNumerator: Option<real>,
    ratioDenominator: Option<real>,
    cashAmount: Option<real>,
    offerPrice: Option<real>,
    predecessor: Option<string>,
    successor: Option<string>,
    continuityConfirmed: bool,
    sourceEventIds: seq<int>,
    sourceCount: nat)
  {
    function EffectiveDate(): int { key.effectiveDate }

    predicate AdjustsPrices() { key.actionClass != Other }

    predicate RescalesVolume() { key.actionClass == Split || key.actionClass == Bonus }
  }

  datatype AdjustmentStatus = Unknown | NotRequired | Adjusted | Unadjusted

  datatype Candle = Candle(
    date: int,
    open: real,
    high: real,
    low: real,
    close: real,
    volume: real,
    status: AdjustmentStatus,
    factor: real)
  {
    /** What the validator of the candle model accepts. */
    predicate Valid() {
      && 0.0 < low <= open <= high
      && low <= close <= high
      && 0.0 <= volume
      && 0.0 < factor
    }

    /** All the adjustment code needs of a candle: it divides by these two numbers. */
    predicate Divisible() { close != 0.0 && factor != 0.0 }

    /** The close before any recorded adjustment. */
    function RecoveredClose(): real
      requires Divisible()
    {
      if status == Adjusted then Quotient(close, factor) else close
    }
  }

  ghost predicate AllDivisible(candles: seq<Candle>) {
    forall i :: 0 <= i < |candles| ==> candles[i].Divisible()
  }

  ghost predicate AllValid(candles: seq<Candle>) {
    forall i :: 0 <= i < |candles| ==> candles[i].Valid()
  }

  ghost predicate NoneAdjusted(candles: seq<Candle>) {
    forall i :: 0 <= i < |candles| ==> candles[i].status != Adjusted
  }

  /** The rights model divides by the sum of the two ratio terms. */
  ghost predicate RatiosDivisible(actions: seq<Action>) {
    forall a :: a in actions ==> RatioDivisible(a)
  }

  predicate RatioDivisible(action: Action) {
    action.ratioNumerator.Some? && action.ratioDenominator.Some? ==>
      action.ratioDenominator.value + action.ratioNumerator.value != 0.0
  }

  /** An action key names one action; the dictionaries of factors are indexed by it. */
  ghost predicate KeysIdentify(actions: seq<Action>) {
    forall a, b :: a in actions && b in actions && a.key == b.key ==> a == b
  }
}
