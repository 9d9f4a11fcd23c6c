/** Implied volatility by bisection (`implied_volatility`), over an abstract option price. */
module ImpliedVolatility {
  import opened Common
  import opened Products

  const LOWEST := 0.000001
  const HIGHEST := 5.0
  const WIDTH := HIGHEST - LOWEST

  datatype OptionType = Call | Put

  /** The quote; the two discounts stand for the exponentials the source multiplies spot and strike with. */
  datatype Quote = Quote(
    marketPrice: real,
    spot: real,
    strike: real,
    timeYears: real,
    spotDiscount: real,
    strikeDiscount: real,
    optionType: OptionType)

  datatype Failure = InvalidInput | ViolatesArbitrageBounds | DidNotConverge

  datatype Outcome = Volatility(value: real) | Raised(failure: Failure)

  function LowerBound(q: Quote): real {
    var s, k := q.spot * q.spotDiscount, q.strike * q.strikeDiscount;
    if q.optionType == Call then Max(0.0, s - k) else Max(0.0, k - s)
  }

  function UpperBound(q: Quote): real {
    if q.optionType == Call then q.spot * q.spotDiscount else q.strike * q.strikeDiscount
  }

  predicate ValidInput(q: Quote) {
    0.0 < q.spot && 0.0 < q.strike && 0.0 < q.timeYears && 0.0 < q.marketPrice
  }

  predicate WithinBounds(q: Quote) {
    LowerBound(q) <= q.marketPrice <= UpperBound(q)
  }

  /** What is used of the price as a function of volatility: it never falls, and rises at most `k` per unit. */
  ghost predicate Monotone(price: real -> real) {
    forall x, y :: LOWEST <= x <= y <= HIGHEST ==> price(x) <= price(y)
  }

  ghost predicate Lipschitz(price: real -> real, k: real) {
    forall x, y :: LOWEST <= x <= y <= HIGHEST ==> RisesAtMost(price, k, x, y)
  }

  predicate RisesAtMost(price: real -> real, k: real, x: real, y: real) {
    price(y) - price(x) <= Times(k, y - x)
  }

  function Power2(n: nat): (r: real)
    ensures 1.0 <= r
  {
    if n == 0 then 1.0 else 2.0 * Power2(n - 1)
  }

  /** The bisection loop with the given bracket and number of remaining passes. */
  function Bisect(price: real -> real, target: real, tolerance: real, low: real, high: real, passes: nat): Outcome
    decreases passes
  {
    if passes == 0 then Raised(DidNotConverge)
    else
      var mid := (low + high) / 2.0;
      if Distance(price(mid), target) <= tolerance then Volatility(mid)
      else if price(mid) < target then Bisect(price, target, tolerance, mid, high, passes - 1)
      else Bisect(price, target, tolerance, low, mid, passes - 1)
  }

  function Solve(q: Quote, price: real -> real, tolerance: real, maxIterations: nat): Outcome {
    if !ValidInput(q) then Raised(InvalidInput)
    else if !WithinBounds(q) then Raised(ViolatesArbitrageBounds)
    else Bisect(price, q.marketPrice, tolerance, LOWEST, HIGHEST, maxIterations)
  }

  /** The loop; what it does to the bracket is stated by `BracketKept`. */
  method BisectByLoop(price: real -> real, target: real, tolerance: real, maxIterations: nat) returns (r: Outcome)
    ensures r == Bisect(price, target, tolerance, LOWEST, HIGHEST, maxIterations)
    ensures r.Volatility? ==> LOWEST < r.value < HIGHEST && Distance(price(r.value), target) <= tolerance
  {
    var low, high := LOWEST, HIGHEST;
    for i := 0 to maxIterations
      invariant LOWEST <= low < high <= HIGHEST
      invariant Bisect(price, target, tolerance, low, high, maxIterations - i)
                == Bisect(price, target, tolerance, LOWEST, HIGHEST, maxIterations)
    {
      var mid := (low + high) / 2.0;
      var value := price(mid);
      if Distance(value, target) <= tolerance {
        return Volatility(mid);
      }
      if value < target {
        low := mid;
      } else {
        high := mid;
      }
    }
    return Raised(DidNotConverge);
  }

  method Solver(q: Quote, price: real -> real, tolerance: real, maxIterations: nat) returns (r: Outcome)
    ensures r == Solve(q, price, tolerance, maxIterations)
    ensures r.Volatility? ==> LOWEST < r.value < HIGHEST && Distance(price(r.value), q.marketPrice) <= tolerance
  {
    if !ValidInput(q) {
      return Raised(InvalidInput);
    }
    if !WithinBounds(q) {
      return Raised(ViolatesArbitrageBounds);
    }
    r := BisectByLoop(price, q.marketPrice, tolerance, maxIterations);
  }

  // ---------- the bracket ----------

  datatype Bracket = Bracket(low: real, high: real)
  {
    function Mid(): real { (low + high) / 2.0 }
  }

  /** The bracket that a pass without an answer leaves behind. */
  function Narrow(price: real -> real, target: real, b: Bracket): Bracket {
    if price(b.Mid()) < target then Bracket(b.Mid(), b.high) else Bracket(b.low, b.Mid())
  }

  function BracketAfter(price: real -> real, target: real, b: Bracket, n: nat): Bracket
    decreases n
  {
    if n == 0 then b else BracketAfter(price, target, Narrow(price, target, b), n - 1)
  }

  /** The midpoint of pass `n` is priced within tolerance. */
  predicate Accepts(price: real -> real, target: real, tolerance: real, b: Bracket, n: nat) {
    Distance(price(BracketAfter(price, target, b, n).Mid()), target) <= tolerance
  }

  /** Each pass halves the bracket, inside the previous one, and never loses a bracketed target. */
  lemma {:induction false} BracketKept(price: real -> real, target: real, b: Bracket, n: nat)
    requires b.low < b.high
    ensures var r := BracketAfter(price, target, b, n);
      && b.low <= r.low < r.high <= b.high
      && Times(r.high - r.low, Power2(n)) == b.high - b.low
      && (price(b.low) <= target <= price(b.high) ==> price(r.low) <= target <= price(r.high))
    decreases n
  {
    if n == 0 {
      assert Times(b.high - b.low, 1.0) == b.high - b.low;
    } else {
      var next := Narrow(price, target, b);
      BracketKept(price, target, next, n - 1);
      var r := BracketAfter(price, target, b, n);
      assert next.high - next.low == (b.high - b.low) / 2.0;
      DoublePower(r.high - r.low, Power2(n - 1));
    }
  }

  lemma {:induction false} DoublePower(width: real, power: real)
    ensures Times(width, 2.0 * power) == 2.0 * Times(width, power)
  {
  }

  /** The answer is the midpoint of the first pass that accepts; it raises exactly when no pass of the budget does. */
  lemma {:induction false} FirstAcceptedMidpoint(price: real -> real, target: real, tolerance: real, b: Bracket,
                                                 passes: nat)
    ensures var r := Bisect(price, target, tolerance, b.low, b.high, passes);
      && (r.Raised? <==> forall n :: 0 <= n < passes ==> !Accepts(price, target, tolerance, b, n))
      && (r.Volatility? ==>
            exists n :: 0 <= n < passes && Accepts(price, target, tolerance, b, n)
                        && r.value == BracketAfter(price, target, b, n).Mid()
                        && forall m :: 0 <= m < n ==> !Accepts(price, target, tolerance, b, m))
    decreases passes
  {
    if passes != 0 {
      var next := Narrow(price, target, b);
      assert Accepts(price, target, tolerance, b, 0) <==> Distance(price(b.Mid()), target) <= tolerance;
      if !Accepts(price, target, tolerance, b, 0) {
        FirstAcceptedMidpoint(price, target, tolerance, next, passes - 1);
        AcceptsLater(price, target, tolerance, b);
        var r := Bisect(price, target, tolerance, next.low, next.high, passes - 1);
        assert r == Bisect(price, target, tolerance, b.low, b.high, passes);
        if r.Volatility? {
          var n :| 0 <= n < passes - 1 && Accepts(price, target, tolerance, next, n)
                   && r.value == BracketAfter(price, target, next, n).Mid()
                   && forall m :: 0 <= m < n ==> !Accepts(price, target, tolerance, next, m);
          assert Accepts(price, target, tolerance, b, n + 1);
          forall m | 0 <= m < n + 1 ensures !Accepts(price, target, tolerance, b, m) {
            assert m == 0 || !Accepts(price, target, tolerance, next, m - 1);
          }
        } else {
          forall n | 0 <= n < passes ensures !Accepts(price, target, tolerance, b, n) {
            assert n == 0 || !Accepts(price, target, tolerance, next, n - 1);
          }
        }
      }
    }
  }

  lemma {:induction false} AcceptsLater(price: real -> real, target: real, tolerance: real, b: Bracket)
    ensures forall n: nat :: 0 < n ==>
              (Accepts(price, target, tolerance, b, n)
               <==> Accepts(price, target, tolerance, Narrow(price, target, b), n - 1))
  {
  }

  // ---------- accuracy ----------

  /** The midpoint of a bracket of a root is priced within `k` times half the width. */
  lemma {:induction false} MidpointError(price: real -> real, k: real, target: real, low: real, high: real)
    requires Monotone(price) && Lipschitz(price, k)
    requires LOWEST <= low < high <= HIGHEST && price(low) <= target <= price(high)
    ensures Distance(price((low + high) / 2.0), target) <= Times(k, (high - low) / 2.0)
  {
    var mid := (low + high) / 2.0;
    assert RisesAtMost(price, k, low, mid) && RisesAtMost(price, k, mid, high);
    assert mid - low == (high - low) / 2.0 && high - mid == (high - low) / 2.0;
  }

  /** The price error of the last midpoint, when the whole bracket is `power` times the last one. */
  lemma {:induction false} LastErrorFits(k: real, width: real, last: real, power: real, tolerance: real)
    requires 0.0 < power && Times(last, power) == width && Times(k, width) <= Times(tolerance, 2.0 * power)
    ensures Times(k, last / 2.0) <= tolerance
  {
    var slack := tolerance - k * (last / 2.0);
    assert k * (last * power) == (k * last) * power;
    assert 0.0 <= slack * power;
    SignOfFactor(slack, power);
  }

  lemma {:induction false} LastPassFits(price: real -> real, k: real, target: real, tolerance: real, b: Bracket, n: nat)
    requires b.low < b.high && Times(k, b.high - b.low) <= Times(tolerance, Power2(n + 1))
    ensures var last := BracketAfter(price, target, b, n);
      Times(k, (last.high - last.low) / 2.0) <= tolerance
  {
    var last := BracketAfter(price, target, b, n);
    BracketKept(price, target, b, n);
    LastErrorFits(k, b.high - b.low, last.high - last.low, Power2(n), tolerance);
  }

  /** A pass accepts when the price error of its bracket fits the tolerance. */
  lemma {:induction false} SmallBracketAccepts(price: real -> real, k: real, target: real, tolerance: real, b: Bracket,
                                               n: nat)
    requires Monotone(price) && Lipschitz(price, k)
    requires LOWEST <= b.low < b.high <= HIGHEST && price(b.low) <= target <= price(b.high)
    requires var last := BracketAfter(price, target, b, n);
      Times(k, (last.high - last.low) / 2.0) <= tolerance
    ensures Accepts(price, target, tolerance, b, n)
  {
    BracketKept(price, target, b, n);
    var last := BracketAfter(price, target, b, n);
    MidpointError(price, k, target, last.low, last.high);
  }

  /** A bracketed target is found when the price error of the last midpoint of the budget fits the tolerance. */
  lemma {:induction false} BisectConverges(price: real -> real, k: real, target: real, tolerance: real, b: Bracket,
                                           passes: nat)
    requires Monotone(price) && Lipschitz(price, k)
    requires LOWEST <= b.low < b.high <= HIGHEST && price(b.low) <= target <= price(b.high)
    requires 0 < passes && Times(k, b.high - b.low) <= Times(tolerance, Power2(passes))
    ensures Bisect(price, target, tolerance, b.low, b.high, passes).Volatility?
  {
    LastPassFits(price, k, target, tolerance, b, passes - 1);
    SmallBracketAccepts(price, k, target, tolerance, b, passes - 1);
    FirstAcceptedMidpoint(price, target, tolerance, b, passes);
  }

  /** Whatever the price function, a returned volatility lies inside the bracket and is priced within tolerance. */
  lemma {:induction false} BisectIsAccurate(price: real -> real, target: real, tolerance: real, low: real,
                                            high: real, passes: nat)
    requires low < high
    ensures var r := Bisect(price, target, tolerance, low, high, passes);
      r.Volatility? ==> low < r.value < high && Distance(price(r.value), target) <= tolerance
    decreases passes
  {
    if passes > 0 {
      var mid := (low + high) / 2.0;
      BisectIsAccurate(price, target, tolerance, mid, high, passes - 1);
      BisectIsAccurate(price, target, tolerance, low, mid, passes - 1);
    }
  }

  /**
   Total and accurate: for a valid quote within the no-arbitrage bounds whose price is reached inside the bracket,
   and an iteration budget that halves the price error below the tolerance, the solver returns an accurate volatility;
   only on a budget of no passes at all does it raise.
   */
  lemma {:induction false} SolverIsTotal(q: Quote, price: real -> real, k: real, tolerance: real, maxIterations: nat)
    requires Monotone(price) && Lipschitz(price, k)
    requires ValidInput(q) && WithinBounds(q)
    requires price(LOWEST) <= q.marketPrice <= price(HIGHEST)
    requires Times(k, WIDTH) <= Times(tolerance, Power2(maxIterations))
    ensures var r := Solve(q, price, tolerance, maxIterations);
      if maxIterations == 0 then r == Raised(DidNotConverge)
      else r.Volatility? && LOWEST < r.value < HIGHEST && Distance(price(r.value), q.marketPrice) <= tolerance
  {
    if maxIterations != 0 {
      BisectConverges(price, k, q.marketPrice, tolerance, Bracket(LOWEST, HIGHEST), maxIterations);
    }
    BisectIsAccurate(price, q.marketPrice, tolerance, LOWEST, HIGHEST, maxIterations);
  }

  /** A target beyond the prices at the ends by more than the tolerance is never found, whatever the budget. */
  lemma {:induction false} SolverRejectsUnreachable(q: Quote, price: real -> real, tolerance: real, maxIterations: nat)
    requires Monotone(price)
    requires price(HIGHEST) + tolerance < q.marketPrice || q.marketPrice < price(LOWEST) - tolerance
    ensures Solve(q, price, tolerance, maxIterations).Raised?
  {
    BisectIsAccurate(price, q.marketPrice, tolerance, LOWEST, HIGHEST, maxIterations);
    PricesInside(price);
  }

  lemma {:induction false} PricesInside(price: real -> real)
    requires Monotone(price)
    ensures forall x :: LOWEST <= x <= HIGHEST ==> price(LOWEST) <= price(x) <= price(HIGHEST)
  {
  }

  /** More passes never lose or change an answer. */
  lemma {:induction false} MorePassesKeepTheAnswer(price: real -> real, target: real, tolerance: real, low: real,
                                                   high: real,
                                                   passes: nat, more: nat)
    requires passes <= more && Bisect(price, target, tolerance, low, high, passes).Volatility?
    ensures Bisect(price, target, tolerance, low, high, more) == Bisect(price, target, tolerance, low, high, passes)
    decreases passes
  {
    var mid := (low + high) / 2.0;
    if Distance(price(mid), target) > tolerance {
      if price(mid) < target {
        MorePassesKeepTheAnswer(price, target, tolerance, mid, high, passes - 1, more - 1);
      } else {
        MorePassesKeepTheAnswer(price, target, tolerance, low, mid, passes - 1, more - 1);
      }
    }
  }

  // ---------- when it raises ----------

  /** The spot and the strike, each times its discount. */
  predicate Discounted(q: Quote, s: real, k: real) {
    s == Times(q.spot, q.spotDiscount) && k == Times(q.strike, q.strikeDiscount)
  }

  /** A call is worth at most the spot, a put at most the strike, and either at least what exercise would give. */
  predicate ArbitrageFree(q: Quote, s: real, k: real) {
    && 0.0 <= q.marketPrice
    && (q.optionType == Call ==> s - k <= q.marketPrice && q.marketPrice <= s)
    && (q.optionType == Put ==> k - s <= q.marketPrice && q.marketPrice <= k)
  }

  lemma {:induction false} BoundsExactly(q: Quote, s: real, k: real)
    requires Discounted(q, s, k)
    ensures WithinBounds(q) <==> ArbitrageFree(q, s, k)
  {
    assert q.optionType == Call || q.optionType == Put;
  }

  /**
   Each failure, exactly: the input is invalid when spot, strike, time or price is not positive; otherwise the
   bounds decide; and otherwise the solver gives up when no midpoint of its budget, from the bracket of 0.000001 to
   5, is priced within the tolerance.
   */
  lemma {:induction false} FailuresExactly(q: Quote, price: real -> real, tolerance: real, maxIterations: nat,
                                           s: real, k: real)
    requires Discounted(q, s, k)
    ensures var r := Solve(q, price, tolerance, maxIterations);
      var valid := 0.0 < q.spot && 0.0 < q.strike && 0.0 < q.timeYears && 0.0 < q.marketPrice;
      var missed := forall n :: 0 <= n < maxIterations ==>
                      !Accepts(price, q.marketPrice, tolerance, Bracket(0.000001, 5.0), n);
      && (r == Raised(InvalidInput) <==> !valid)
      && (r == Raised(ViolatesArbitrageBounds) <==> valid && !ArbitrageFree(q, s, k))
      && (r == Raised(DidNotConverge) <==> valid && ArbitrageFree(q, s, k) && missed)
      && (r.Volatility? <==> valid && ArbitrageFree(q, s, k) && !missed)
      && (r.Volatility? ==> 0.000001 < r.value < 5.0)
  {
    BoundsExactly(q, s, k);
    OnlyFailureIsNoConvergence(price, q.marketPrice, tolerance, LOWEST, HIGHEST, maxIterations);
    FirstAcceptedMidpoint(price, q.marketPrice, tolerance, Bracket(LOWEST, HIGHEST), maxIterations);
    BisectIsAccurate(price, q.marketPrice, tolerance, LOWEST, HIGHEST, maxIterations);
  }

  lemma {:induction false} OnlyFailureIsNoConvergence(price: real -> real, target: real, tolerance: real, low: real,
                                                      high: real, passes: nat)
    ensures var r := Bisect(price, target, tolerance, low, high, passes);
      r.Raised? ==> r.failure == DidNotConverge
    decreases passes
  {
    if passes > 0 {
      var mid := (low + high) / 2.0;
      OnlyFailureIsNoConvergence(price, target, tolerance, mid, high, passes - 1);
      OnlyFailureIsNoConvergence(price, target, tolerance, low, mid, passes - 1);
    }
  }

  /**
   Put-call parity: a call quote is free of arbitrage exactly when the put quote of the same spot and strike is whose
   price is the call's, less the discounted spot, plus the discounted strike.
   */
  lemma {:induction false} ParityKeepsBounds(call: Quote, put: Quote, s: real, k: real)
    requires Discounted(call, s, k) && call.optionType == Call
    requires put == call.(optionType := Put, marketPrice := call.marketPrice - s + k)
    ensures WithinBounds(call) <==> WithinBounds(put)
  {
    BoundsExactly(call, s, k);
    BoundsExactly(put, s, k);
  }
}
