/** Independence penalties and layer scores (`_independence_penalties` and `_draft`). */
module CausalScoring {
  import opened Common
  import opened Ordering
  import opened Sums
  import opened CausalEvidence

  function Maximum(layer: Layer): real {
    match layer
    case Cause => 6.0
    case Sponsor => 10.0
    case Structure => 6.0
    case Flow => 6.0
  }

  function Minimum(layer: Layer): real {
    match layer
    case Cause => 2.0
    case Sponsor => 4.0
    case Structure => 2.0
    case Flow => 2.0
  }

  datatype Penalty = Penalty(left: Layer, right: Layer, rawInputKey: string, amount: real)

  datatype LayerScore = LayerScore(layer: Layer, rawScore: real, penalty: real, finalScore: real, passed: bool)

  /** The adjusted contribution of an item: the scoring functions below take it as a parameter. */
  type Scorer = Evidence -> real

  // ---------- the specification ----------

  function LayerTerm(score: Scorer, layer: Layer): Evidence -> real {
    (e: Evidence) => if e.layer == layer then score(e) else 0.0
  }

  /** The signed sum of a layer's adjusted contributions. */
  function RawScore(evidence: seq<Evidence>, score: Scorer, layer: Layer): real {
    SumBy(LayerTerm(score, layer), evidence)
  }

  /** A positive item of the layer that names the key. */
  predicate Names(e: Evidence, score: Scorer, layer: Layer, key: string) {
    e.layer == layer && 0.0 < score(e) && key in e.rawInputKeys
  }

  /** The strongest positive contribution of a layer that names the key, zero if there is none. */
  function Strongest(evidence: seq<Evidence>, score: Scorer, layer: Layer, key: string): (r: real)
    ensures 0.0 <= r
  {
    if evidence == [] then 0.0
    else
      var n := |evidence| - 1;
      var earlier := Strongest(evidence[..n], score, layer, key);
      if Names(evidence[n], score, layer, key) then Max(earlier, score(evidence[n])) else earlier
  }

  function AllKeys(evidence: seq<Evidence>): seq<string> {
    if evidence == [] then []
    else AllKeys(evidence[..|evidence| - 1]) + evidence[|evidence| - 1].rawInputKeys
  }

  /** Every key of the evidence, sorted. */
  function SortedKeys(evidence: seq<Evidence>): seq<string> {
    SortDistinct(StringLe, AllKeys(evidence))
  }

  predicate Shared(evidence: seq<Evidence>, score: Scorer, left: Layer, right: Layer, key: string) {
    0.0 < Strongest(evidence, score, left, key) && 0.0 < Strongest(evidence, score, right, key)
  }

  function PairAmount(evidence: seq<Evidence>, score: Scorer, left: Layer, right: Layer, key: string): real {
    0.3 * Min(Strongest(evidence, score, left, key), Strongest(evidence, score, right, key))
  }

  /** The penalties of one pair of layers, in key order. */
  function PairPenalties(evidence: seq<Evidence>, score: Scorer, left: Layer, right: Layer,
                         keys: seq<string>): seq<Penalty>
  {
    if keys == [] then []
    else
      var n := |keys| - 1;
      var earlier := PairPenalties(evidence, score, left, right, keys[..n]);
      if Shared(evidence, score, left, right, keys[n]) then
        earlier + [Penalty(left, right, keys[n], PairAmount(evidence, score, left, right, keys[n]))]
      else earlier
  }

  /** The six pairs of layers in the order of the two loops. */
  const PAIRS: seq<(Layer, Layer)> :=
    [(Cause, Sponsor), (Cause, Structure), (Cause, Flow), (Sponsor, Structure), (Sponsor, Flow), (Structure, Flow)]

  function PenaltiesOfPairs(evidence: seq<Evidence>, score: Scorer, pairs: seq<(Layer, Layer)>): seq<Penalty> {
    if pairs == [] then []
    else
      var n := |pairs| - 1;
      PenaltiesOfPairs(evidence, score, pairs[..n])
      + PairPenalties(evidence, score, pairs[n].0, pairs[n].1, SortedKeys(evidence))
  }

  /** All penalties, in the order in which the source lists them. */
  function Penalties(evidence: seq<Evidence>, score: Scorer): seq<Penalty> {
    PenaltiesOfPairs(evidence, score, PAIRS)
  }

  /** Each penalty is charged half to its left and half to its right layer. */
  function HalfOn(layer: Layer): Penalty -> real {
    (p: Penalty) =>
      (if p.left == layer then p.amount / 2.0 else 0.0) + (if p.right == layer then p.amount / 2.0 else 0.0)
  }

  function LayerPenalty(evidence: seq<Evidence>, score: Scorer, layer: Layer): real {
    SumBy(HalfOn(layer), Penalties(evidence, score))
  }

  /** Clamp the raw score to its cap, the penalty to the raw score, and their difference to zero. */
  function Score(layer: Layer, raw: real, layerPenalty: real): LayerScore {
    var rawScore := Min(Max(raw, 0.0), Maximum(layer));
    var penalty := Min(layerPenalty, rawScore);
    var finalScore := Max(rawScore - penalty, 0.0);
    LayerScore(layer, rawScore, penalty, finalScore, Minimum(layer) <= finalScore)
  }

  function ScoreOf(evidence: seq<Evidence>, score: Scorer, layer: Layer): LayerScore {
    Score(layer, RawScore(evidence, score, layer), LayerPenalty(evidence, score, layer))
  }

  function LayerScores(evidence: seq<Evidence>, score: Scorer): (r: seq<LayerScore>)
    ensures |r| == 4
  {
    [ScoreOf(evidence, score, Cause), ScoreOf(evidence, score, Sponsor),
     ScoreOf(evidence, score, Structure), ScoreOf(evidence, score, Flow)]
  }

  function Total(layerScores: seq<LayerScore>): real {
    if layerScores == [] then 0.0
    else Total(layerScores[..|layerScores| - 1]) + layerScores[|layerScores| - 1].finalScore
  }

  function Stage1Score(evidence: seq<Evidence>, score: Scorer): real {
    Total(LayerScores(evidence, score))
  }

  // ---------- the source's loops ----------

  type StrongestTable = map<(Layer, string), real>

  /** `strongest.get((layer, key), 0.0)`. */
  function Lookup(table: StrongestTable, layer: Layer, key: string): real {
    if (layer, key) in table then table[(layer, key)] else 0.0
  }

  ghost predicate Tabulates(table: StrongestTable, evidence: seq<Evidence>, score: Scorer) {
    forall layer, key :: Lookup(table, layer, key) == Strongest(evidence, score, layer, key)
                         && ((layer, key) in table ==> 0.0 < table[(layer, key)])
  }

  /** One item updates the entries of its layer and its keys. */
  method RecordItem(table: StrongestTable, item: Evidence, adjusted: real) returns (r: StrongestTable)
    requires 0.0 < adjusted
    ensures forall layer, key :: Lookup(r, layer, key) ==
              if layer == item.layer && key in item.rawInputKeys then Max(Lookup(table, layer, key), adjusted)
              else Lookup(table, layer, key)
    ensures forall layer, key :: (layer, key) in r && (layer, key) !in table ==> 0.0 < r[(layer, key)]
    ensures forall layer, key :: (layer, key) in table ==> (layer, key) in r && table[(layer, key)] <= r[(layer, key)]
  {
    r := table;
    var keys := item.rawInputKeys;
    for i := 0 to |keys|
      invariant forall layer, key :: Lookup(r, layer, key) ==
                  if layer == item.layer && key in keys[..i] then Max(Lookup(table, layer, key), adjusted)
                  else Lookup(table, layer, key)
      invariant forall layer, key :: (layer, key) in r && (layer, key) !in table ==> 0.0 < r[(layer, key)]
      invariant forall layer, key :: (layer, key) in table ==>
                  (layer, key) in r && table[(layer, key)] <= r[(layer, key)]
    {
      r := r[(item.layer, keys[i]) := Max(Lookup(r, item.layer, keys[i]), adjusted)];
      assert forall key :: key in keys[..i + 1] <==> key in keys[..i] || key == keys[i];
    }
    assert keys[..|keys|] == keys;
  }

  method BuildStrongest(evidence: seq<Evidence>, evaluated: map<string, real>, score: Scorer)
    returns (table: StrongestTable)
    requires forall i :: 0 <= i < |evidence| ==>
               evidence[i].id in evaluated && evaluated[evidence[i].id] == score(evidence[i])
    ensures Tabulates(table, evidence, score)
  {
    table := map[];
    for i := 0 to |evidence|
      invariant Tabulates(table, evidence[..i], score)
    {
      assert evidence[..i + 1][..i] == evidence[..i];
      var adjusted := evaluated[evidence[i].id];
      if adjusted <= 0.0 {
        continue;
      }
      table := RecordItem(table, evidence[i], adjusted);
    }
    assert evidence[..|evidence|] == evidence;
  }

  type ByLayer = map<Layer, real>

  /** `defaultdict(float)` over the four layers. */
  function NothingYet(): (r: ByLayer)
    ensures forall l: Layer :: l in r && r[l] == 0.0
  {
    var r: ByLayer := map[Cause := 0.0, Sponsor := 0.0, Structure := 0.0, Flow := 0.0];
    assert forall l: Layer :: l.Cause? || l.Sponsor? || l.Structure? || l.Flow? ==> l in r && r[l] == 0.0;
    r
  }

  /** The running charges agree with the penalties listed so far. */
  ghost predicate Charges(byLayer: ByLayer, penalties: seq<Penalty>) {
    forall l: Layer :: l in byLayer && byLayer[l] == SumBy(HalfOn(l), penalties)
  }

  method Charge(byLayer: ByLayer, penalty: Penalty, ghost listed: seq<Penalty>) returns (r: ByLayer)
    requires Charges(byLayer, listed) && penalty.left != penalty.right
    ensures Charges(r, listed + [penalty])
  {
    r := byLayer[penalty.left := byLayer[penalty.left] + penalty.amount / 2.0];
    r := r[penalty.right := r[penalty.right] + penalty.amount / 2.0];
    forall l: Layer ensures l in r && r[l] == SumBy(HalfOn(l), listed + [penalty]) {
      SumBySnoc(HalfOn(l), listed, penalty);
    }
  }

  /** The penalties of one pair, charged to the two layers as they are listed. */
  method PenalisePair(evidence: seq<Evidence>, table: StrongestTable, left: Layer, right: Layer, keys: seq<string>,
                      score: Scorer, before: ByLayer, listed: seq<Penalty>)
    returns (byLayer: ByLayer, penalties: seq<Penalty>)
    requires Tabulates(table, evidence, score) && left != right && Charges(before, listed)
    ensures penalties == listed + PairPenalties(evidence, score, left, right, keys)
    ensures Charges(byLayer, penalties)
  {
    byLayer, penalties := before, listed;
    for i := 0 to |keys|
      invariant penalties == listed + PairPenalties(evidence, score, left, right, keys[..i])
      invariant Charges(byLayer, penalties)
    {
      assert keys[..i + 1][..i] == keys[..i];
      var key := keys[i];
      assert Lookup(table, left, key) == Strongest(evidence, score, left, key);
      assert Lookup(table, right, key) == Strongest(evidence, score, right, key);
      if (left, key) in table && (right, key) in table {
        var penalty := Penalty(left, right, key, 0.3 * Min(table[(left, key)], table[(right, key)]));
        byLayer := Charge(byLayer, penalty, penalties);
        penalties := penalties + [penalty];
      }
    }
    assert keys[..|keys|] == keys;
  }

  lemma {:induction false} PenaltiesOfPairsSnoc(evidence: seq<Evidence>, score: Scorer, pairs: seq<(Layer, Layer)>,
                                                k: nat)
    requires k < |pairs|
    ensures PenaltiesOfPairs(evidence, score, pairs[..k + 1])
            == PenaltiesOfPairs(evidence, score, pairs[..k])
               + PairPenalties(evidence, score, pairs[k].0, pairs[k].1, SortedKeys(evidence))
  {
    assert pairs[..k + 1][..k] == pairs[..k];
  }

  /** The position of a pair in `PAIRS`, for the two nested loops over the layers. */
  function PairIndex(left: nat, right: nat): (k: nat)
    requires left < right < 4
    ensures k < 6 && PAIRS[k] == (LAYERS[left], LAYERS[right])
  {
    if left == 0 then right - 1 else left + right
  }

  method IndependencePenalties(evidence: seq<Evidence>, evaluated: map<string, real>, score: Scorer)
    returns (penalties: seq<Penalty>, byLayer: ByLayer)
    requires forall i :: 0 <= i < |evidence| ==>
               evidence[i].id in evaluated && evaluated[evidence[i].id] == score(evidence[i])
    ensures penalties == Penalties(evidence, score)
    ensures forall l: Layer :: l in byLayer && byLayer[l] == LayerPenalty(evidence, score, l)
  {
    var table := BuildStrongest(evidence, evaluated, score);
    var keys := SortedKeys(evidence);
    penalties, byLayer := [], NothingYet();
    ghost var k: nat := 0;
    for left := 0 to 4
      invariant k == (if left == 0 then 0 else if left == 1 then 3 else if left == 2 then 5 else 6)
      invariant penalties == PenaltiesOfPairs(evidence, score, PAIRS[..k])
      invariant Charges(byLayer, penalties)
    {
      for right := left + 1 to 4
        invariant left < 3 ==> (if right < 4 then k == PairIndex(left, right) else k == PairIndex(left, 3) + 1)
        invariant left == 3 ==> k == 6
        invariant penalties == PenaltiesOfPairs(evidence, score, PAIRS[..k])
        invariant Charges(byLayer, penalties)
      {
        PenaltiesOfPairsSnoc(evidence, score, PAIRS, k);
        byLayer, penalties :=
          PenalisePair(evidence, table, LAYERS[left], LAYERS[right], keys, score, byLayer, penalties);
        k := k + 1;
      }
    }
    assert PAIRS[..6] == PAIRS;
  }

  /** Evaluation of the items and the raw sum of each layer. */
  method EvaluateAndSum(evidence: seq<Evidence>, score: Scorer)
    returns (evaluated: map<string, real>, rawScores: ByLayer)
    requires forall i, j :: 0 <= i < j < |evidence| ==> evidence[i].id != evidence[j].id
    ensures forall i :: 0 <= i < |evidence| ==>
              evidence[i].id in evaluated && evaluated[evidence[i].id] == score(evidence[i])
    ensures forall l: Layer :: l in rawScores && rawScores[l] == RawScore(evidence, score, l)
  {
    evaluated := map[];
    for i := 0 to |evidence|
      invariant forall j :: 0 <= j < i ==>
                  evidence[j].id in evaluated && evaluated[evidence[j].id] == score(evidence[j])
    {
      evaluated := evaluated[evidence[i].id := score(evidence[i])];
    }
    rawScores := NothingYet();
    for i := 0 to |evidence|
      invariant forall l: Layer :: l in rawScores && rawScores[l] == RawScore(evidence[..i], score, l)
    {
      assert evidence[..i + 1][..i] == evidence[..i];
      rawScores := rawScores[evidence[i].layer := rawScores[evidence[i].layer] + evaluated[evidence[i].id]];
    }
    assert evidence[..|evidence|] == evidence;
  }

  /** The scoring part of `_draft`. */
  method ScoreCandidate(evidence: seq<Evidence>, score: Scorer)
    returns (layerScores: seq<LayerScore>, penalties: seq<Penalty>, total: real)
    requires forall i, j :: 0 <= i < j < |evidence| ==> evidence[i].id != evidence[j].id
    ensures layerScores == LayerScores(evidence, score)
    ensures penalties == Penalties(evidence, score)
    ensures total == Stage1Score(evidence, score)
  {
    var evaluated, rawScores := EvaluateAndSum(evidence, score);
    var byLayer;
    penalties, byLayer := IndependencePenalties(evidence, evaluated, score);
    layerScores := [];
    for i := 0 to 4
      invariant |layerScores| == i
      invariant forall j :: 0 <= j < i ==> layerScores[j] == ScoreOf(evidence, score, LAYERS[j])
    {
      layerScores := layerScores + [Score(LAYERS[i], rawScores[LAYERS[i]], byLayer[LAYERS[i]])];
    }
    assert layerScores == LayerScores(evidence, score);
    total := Total(layerScores);
  }
}
