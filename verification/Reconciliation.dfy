/** From source observations to one action per symbol, class and effective date (`reconcile_corporate_actions`). */
module Reconciliation {
  import opened Common
  import opened Ordering
  import opened CorporateActions

  /**
   One row of a source, after parsing: `None` is a field that is missing or does not parse, the empty symbol a
   missing symbol.  Numbers are as parsed, so they may still be zero or negative.
   */
  datatype Observation = Observation(
    id: int,
    source: string,
    symbol: string,
    actionClass: ActionClass,
    effectiveDate: Option<int>,
    parsedAt: Option<int>,
    revision: string,
    ratioNumerator: Option<real>,
    ratioDenominator: Option<real>,
    cashAmount: Option<real>,
    offerPrice: Option<real>,
    adjustmentFactor: Option<real>,
    predecessor: Option<string>,
    successor: Option<string>,
    continuity: Option<bool>)

  predicate Admitted(row: Observation, asOf: int) {
    row.parsedAt.Some? && row.parsedAt.value <= asOf && row.symbol != "" && row.effectiveDate.Some?
  }

  function KeyOf(row: Observation): ActionKey
    requires row.effectiveDate.Some?
  {
    ActionKey(row.symbol, row.actionClass, row.effectiveDate.value)
  }

  // ---------- order of the groups ----------

  /** Rank of the class names in alphabetical order. */
  function ClassRank(c: ActionClass): nat {
    match c
    case Bonus => 0
    case Demerger => 1
    case Dividend => 2
    case Merger => 3
    case Other => 4
    case Rights => 5
    case Split => 6
  }

  predicate KeyLe(a: ActionKey, b: ActionKey) {
    if a.symbol != b.symbol then StringLe(a.symbol, b.symbol)
    else if a.actionClass != b.actionClass then ClassRank(a.actionClass) < ClassRank(b.actionClass)
    else a.effectiveDate <= b.effectiveDate
  }

  lemma {:induction false} KeyLeIsTotal()
    ensures TotalOrder(KeyLe)
  {
    OrdersAreTotal();
  }

  // ---------- grouping and the latest row of each source ----------

  /** The admitted rows of one action, in input order. */
  function Group(rows: seq<Observation>, asOf: int, key: ActionKey): seq<Observation> {
    if rows == [] then []
    else
      var n := |rows| - 1;
      var earlier := Group(rows[..n], asOf, key);
      if Admitted(rows[n], asOf) && KeyOf(rows[n]) == key then earlier + [rows[n]] else earlier
  }

  /** The keys of the admitted rows, in input order, repetitions included. */
  function Keys(rows: seq<Observation>, asOf: int): seq<ActionKey> {
    if rows == [] then []
    else
      var n := |rows| - 1;
      var earlier := Keys(rows[..n], asOf);
      if Admitted(rows[n], asOf) then earlier + [KeyOf(rows[n])] else earlier
  }

  /** Position of a source in the dictionary of latest rows. */
  function SourceIndex(latest: seq<Observation>, source: string): (r: Option<nat>)
    ensures r.None? ==> forall i :: 0 <= i < |latest| ==> latest[i].source != source
    ensures r.Some? ==> r.value < |latest| && latest[r.value].source == source
  {
    if latest == [] then None
    else if latest[|latest| - 1].source == source then Some(|latest| - 1)
    else SourceIndex(latest[..|latest| - 1], source)
  }

  /** A later or equally late row replaces the row of its source in place; a new source goes last. */
  function Supersede(latest: seq<Observation>, row: Observation): seq<Observation> {
    match SourceIndex(latest, row.source)
    case None => latest + [row]
    case Some(i) => if NotOlder(row, latest[i]) then latest[i := row] else latest
  }

  predicate NotOlder(row: Observation, previous: Observation) {
    row.parsedAt.Some? && previous.parsedAt.Some? && previous.parsedAt.value <= row.parsedAt.value
  }

  /** The insertion-ordered dictionary of the latest row of each source, as the list of its values. */
  function LatestBySource(observations: seq<Observation>): seq<Observation> {
    if observations == [] then []
    else Supersede(LatestBySource(observations[..|observations| - 1]), observations[|observations| - 1])
  }

  // ---------- terms ----------

  /** `_factor`: the price factor a split or bonus ratio stands for. */
  function RatioFactor(actionClass: ActionClass, numerator: Option<real>, denominator: Option<real>): Option<real> {
    if numerator.None? || denominator.None? then None
    else
      var top, bottom := numerator.value, denominator.value;
      if top <= 0.0 || bottom <= 0.0 then None
      else if actionClass == Split then Some(bottom / top)
      else if actionClass == Bonus then Some(bottom / (top + bottom))
      else None
  }

  datatype Terms = Terms(numerator: Option<real>, denominator: Option<real>, cash: Option<real>, offer: Option<real>)

  function TermsOf(row: Observation): Terms {
    Terms(Positive(row.ratioNumerator), Positive(row.ratioDenominator), Positive(row.cashAmount),
          Positive(row.offerPrice))
  }

  lemma {:induction false} SingletonMember<T>(s: set<T>, x: T, y: T)
    requires |s| == 1 && x in s && y in s
    ensures x == y
  {
    assert |s - {x}| == 0;
  }

  /** `next(iter(s)) if len(s) == 1 else None`. */
  function Sole<T(==)>(s: set<T>): (r: Option<T>)
    ensures r.Some? <==> |s| == 1
    ensures r.Some? ==> s == {r.value}
  {
    if |s| == 1 then
      assert forall x, y :: x in s && y in s ==> x == y by {
        forall x, y | x in s && y in s ensures x == y { SingletonMember(s, x, y); }
      }
      var x :| x in s;
      Some(x)
    else
      None
  }

  function RatioTerms(terms: set<Terms>): set<(real, real)> {
    set t | t in terms && t.numerator.Some? && t.denominator.Some? :: (t.numerator.value, t.denominator.value)
  }

  function Factors(actionClass: ActionClass, terms: set<Terms>): set<real> {
    set t | t in terms && RatioFactor(actionClass, t.numerator, t.denominator).Some?
      :: RatioFactor(actionClass, t.numerator, t.denominator).value
  }

  function CashValues(terms: set<Terms>): set<real> {
    set t | t in terms && t.cash.Some? :: t.cash.value
  }

  function OfferValues(terms: set<Terms>): set<real> {
    set t | t in terms && t.offer.Some? :: t.offer.value
  }

  function ExplicitFactors(rows: set<Observation>): set<real> {
    set r | r in rows && Positive(r.adjustmentFactor).Some? :: Positive(r.adjustmentFactor).value
  }

  function Predecessors(rows: set<Observation>): set<string> {
    set r | r in rows && r.predecessor.Some? :: r.predecessor.value
  }

  function Successors(rows: set<Observation>): set<string> {
    set r | r in rows && r.successor.Some? :: r.successor.value
  }

  function Continuities(rows: set<Observation>): set<bool> {
    set r | r in rows && r.continuity.Some? :: r.continuity.value
  }

  function Revisions(rows: set<Observation>): set<string> {
    set r | r in rows :: r.revision
  }

  const CANCELLED := "CANCELLED"

  // ---------- the decision for one action ----------

  /** Terms the selected rows agree on, with the disagreement flag of the source. */
  datatype Agreed = Agreed(
    ratio: Option<(real, real)>,
    factors: set<real>,
    cash: Option<real>,
    offer: Option<real>,
    explicitFactor: Option<real>,
    predecessor: Option<string>,
    successor: Option<string>,
    continuity: bool,
    conflict: bool)

  function Agree(actionClass: ActionClass, rows: set<Observation>): Agreed {
    var terms := set r | r in rows :: TermsOf(r);
    var factors := Factors(actionClass, terms);
    Agreed(
      Sole(RatioTerms(terms)),
      factors,
      Sole(CashValues(terms)),
      Sole(OfferValues(terms)),
      Sole(ExplicitFactors(rows)),
      Sole(Predecessors(rows)),
      Sole(Successors(rows)),
      Continuities(rows) == {true},
      || |factors| > 1
      || |RatioTerms(terms)| > 1
      || |CashValues(terms)| > 1
      || |OfferValues(terms)| > 1
      || |ExplicitFactors(rows)| > 1
      || |Predecessors(rows)| > 1
      || |Successors(rows)| > 1
      || |Continuities(rows)| > 1)
  }

  /** State and stored factor of an action whose selected rows do not cancel it. */
  function StateAndFactor(symbol: string, actionClass: ActionClass, a: Agreed): (ReconciliationState, Option<real>) {
    if a.conflict then (Conflict, None)
    else if (actionClass == Split || actionClass == Bonus) && a.factors != {} then (Reconciled, Sole(a.factors))
    else if actionClass == Dividend && a.cash.Some? then (Reconciled, None)
    else if actionClass == Rights && a.ratio.Some? && a.offer.Some? then (Reconciled, None)
    else if actionClass == Merger || actionClass == Demerger then
      if a.explicitFactor.None? then (WaitDetails, None)
      else if !(a.continuity && a.predecessor == Some(symbol) && a.successor == Some(symbol)) then (WaitDetails, None)
      else (Reconciled, a.explicitFactor)
    else if actionClass == Other then (Reconciled, None)
    else (WaitDetails, None)
  }

  function Settle(key: ActionKey, a: Agreed, ids: seq<int>, count: nat): Action {
    var (state, factor) := StateAndFactor(key.symbol, key.actionClass, a);
    Action(
      key, state, factor,
      if a.ratio.Some? then Some(a.ratio.value.0) else None,
      if a.ratio.Some? then Some(a.ratio.value.1) else None,
      a.cash, a.offer, a.predecessor, a.successor, a.continuity, ids, count)
  }

  function Decide(key: ActionKey, rows: set<Observation>, ids: seq<int>, count: nat): Action {
    var revisions := Revisions(rows);
    if revisions == {CANCELLED} then
      Action(key, Cancelled, None, None, None, None, None, None, None, false, ids, count)
    else if CANCELLED in revisions then
      Action(key, Conflict, None, None, None, None, None, None, None, false, ids, count)
    else
      Settle(key, Agree(key.actionClass, rows), ids, count)
  }

  function MembersOf<T(==)>(s: seq<T>): set<T> {
    set x | x in s
  }

  function IdsOf(rows: seq<Observation>): seq<int> {
    MapSeq((r: Observation) => r.id, rows)
  }

  /** The decision on the selected rows. */
  function DecideOn(key: ActionKey, selected: seq<Observation>): Action {
    Decide(key, MembersOf(selected), IdsOf(selected), |selected|)
  }

  function ActionFor(key: ActionKey, observations: seq<Observation>): Action {
    DecideOn(key, LatestBySource(observations))
  }

  function DecideEach(keys: seq<ActionKey>, rows: seq<Observation>, asOf: int): (out: seq<Action>)
    ensures |out| == |keys|
  {
    if keys == [] then []
    else
      var n := |keys| - 1;
      DecideEach(keys[..n], rows, asOf) + [ActionFor(keys[n], Group(rows, asOf, keys[n]))]
  }

  lemma {:induction false} DecideEachAt(keys: seq<ActionKey>, rows: seq<Observation>, asOf: int, i: nat)
    requires i < |keys|
    ensures DecideEach(keys, rows, asOf)[i] == ActionFor(keys[i], Group(rows, asOf, keys[i]))
  {
    if i < |keys| - 1 {
      DecideEachAt(keys[..|keys| - 1], rows, asOf, i);
    }
  }

  /** One action for each key, in ascending key order. */
  function Reconcile(rows: seq<Observation>, asOf: int): (out: seq<Action>)
    ensures |out| == |SortDistinct(KeyLe, Keys(rows, asOf))|
  {
    DecideEach(SortDistinct(KeyLe, Keys(rows, asOf)), rows, asOf)
  }

  // ---------- the source's loops ----------

  /** First loop: distribute the admitted rows over a dictionary of lists. */
  method GroupRows(rows: seq<Observation>, asOf: int)
    returns (grouped: map<ActionKey, seq<Observation>>, order: seq<ActionKey>)
    ensures forall k :: k in grouped <==> k in Keys(rows, asOf)
    ensures forall k :: k in grouped ==> grouped[k] == Group(rows, asOf, k)
    ensures SameMembers(order, Keys(rows, asOf))
  {
    grouped, order := map[], [];
    for i := 0 to |rows|
      invariant forall k :: k in grouped <==> k in Keys(rows[..i], asOf)
      invariant forall k :: k in grouped ==> grouped[k] == Group(rows[..i], asOf, k)
      invariant forall k :: k !in grouped ==> Group(rows[..i], asOf, k) == []
      invariant SameMembers(order, Keys(rows[..i], asOf))
    {
      assert rows[..i + 1][..i] == rows[..i];
      var row := rows[i];
      if Admitted(row, asOf) {
        var key := KeyOf(row);
        if key in grouped {
          grouped := grouped[key := grouped[key] + [row]];
        } else {
          grouped := grouped[key := [row]];
          order := order + [key];
        }
      }
    }
    assert rows[..|rows|] == rows;
  }

  /** Inner loop: the latest row of each source. */
  method SelectLatest(observations: seq<Observation>) returns (latest: seq<Observation>)
    ensures latest == LatestBySource(observations)
  {
    latest := [];
    for i := 0 to |observations|
      invariant latest == LatestBySource(observations[..i])
    {
      assert observations[..i + 1][..i] == observations[..i];
      var row := observations[i];
      var previous := SourceIndex(latest, row.source);
      if previous.None? {
        latest := latest + [row];
      } else if NotOlder(row, latest[previous.value]) {
        latest := latest[previous.value := row];
      }
    }
    assert observations[..|observations|] == observations;
  }

  method DecideGroup(key: ActionKey, observations: seq<Observation>) returns (action: Action)
    ensures action == ActionFor(key, observations)
  {
    var selected := SelectLatest(observations);
    action := DecideOn(key, selected);
  }

  /** Second loop: one decision for each group, in ascending key order. */
  method DecideAll(keys: seq<ActionKey>, grouped: map<ActionKey, seq<Observation>>, ghost rows: seq<Observation>,
                   ghost asOf: int)
    returns (output: seq<Action>)
    requires forall k :: k in keys ==> k in grouped && grouped[k] == Group(rows, asOf, k)
    ensures output == DecideEach(keys, rows, asOf)
  {
    output := [];
    for i := 0 to |keys|
      invariant output == DecideEach(keys[..i], rows, asOf)
    {
      assert keys[..i + 1][..i] == keys[..i];
      var action := DecideGroup(keys[i], grouped[keys[i]]);
      output := output + [action];
    }
    assert keys[..|keys|] == keys;
  }

  method ReconcileCorporateActions(rows: seq<Observation>, asOf: int) returns (output: seq<Action>)
    ensures output == Reconcile(rows, asOf)
  {
    var grouped, order := GroupRows(rows, asOf);
    KeyLeIsTotal();
    SortDistinctDependsOnMembers(KeyLe, order, Keys(rows, asOf));
    SortDistinctIsSorted(KeyLe, order);
    output := DecideAll(SortDistinct(KeyLe, order), grouped, rows, asOf);
  }
}
