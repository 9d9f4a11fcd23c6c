/** What the scoring rules keep: bounds, conservation, order independence and the price of sharing a raw key. */
module CausalLaws {
  import opened Common
  import opened Ordering
  import opened Sums
  import opened CausalEvidence
  import opened CausalScoring

  // ---------- bounds ----------

  /** Every layer score lies between zero and its cap, and is the clamped raw score less the clamped penalty. */
  lemma {:induction false} ScoreBounds(layer: Layer, raw: real, layerPenalty: real)
    requires 0.0 <= layerPenalty
    ensures var r := Score(layer, raw, layerPenalty);
      && 0.0 <= r.finalScore <= r.rawScore <= Maximum(layer)
      && 0.0 <= r.penalty <= layerPenalty
      && r.finalScore == r.rawScore - r.penalty
  {
  }

  ghost predicate WellFormedPenalties(penalties: seq<Penalty>) {
    forall i :: 0 <= i < |penalties| ==> penalties[i].left != penalties[i].right && 0.0 < penalties[i].amount
  }

  lemma {:induction false} PairPenaltiesWellFormed(evidence: seq<Evidence>, score: Scorer, left: Layer, right: Layer,
                                                   keys: seq<string>)
    requires left != right
    ensures WellFormedPenalties(PairPenalties(evidence, score, left, right, keys))
  {
    if keys != [] {
      PairPenaltiesWellFormed(evidence, score, left, right, keys[..|keys| - 1]);
    }
  }

  lemma {:induction false} PenaltiesOfPairsWellFormed(evidence: seq<Evidence>, score: Scorer,
                                                      pairs: seq<(Layer, Layer)>)
    requires forall i :: 0 <= i < |pairs| ==> pairs[i].0 != pairs[i].1
    ensures WellFormedPenalties(PenaltiesOfPairs(evidence, score, pairs))
  {
    if pairs != [] {
      var n := |pairs| - 1;
      PenaltiesOfPairsWellFormed(evidence, score, pairs[..n]);
      PairPenaltiesWellFormed(evidence, score, pairs[n].0, pairs[n].1, SortedKeys(evidence));
    }
  }

  lemma {:induction false} ChargesNotNegative(layer: Layer, penalties: seq<Penalty>)
    requires WellFormedPenalties(penalties)
    ensures 0.0 <= SumBy(HalfOn(layer), penalties)
  {
    if penalties != [] {
      ChargesNotNegative(layer, penalties[..|penalties| - 1]);
    }
  }

  function Amount(): Penalty -> real { (p: Penalty) => p.amount }

  lemma {:induction false} HalvesAddUp(penalties: seq<Penalty>)
    requires WellFormedPenalties(penalties)
    ensures SumBy(HalfOn(Cause), penalties) + SumBy(HalfOn(Sponsor), penalties)
            + SumBy(HalfOn(Structure), penalties) + SumBy(HalfOn(Flow), penalties)
            == SumBy(Amount(), penalties)
  {
    if penalties != [] {
      HalvesAddUp(penalties[..|penalties| - 1]);
    }
  }

  lemma {:induction false} PenaltiesWellFormed(evidence: seq<Evidence>, score: Scorer)
    ensures WellFormedPenalties(Penalties(evidence, score))
    ensures forall l: Layer :: 0.0 <= LayerPenalty(evidence, score, l)
  {
    PenaltiesOfPairsWellFormed(evidence, score, PAIRS);
    forall l: Layer ensures 0.0 <= LayerPenalty(evidence, score, l) {
      ChargesNotNegative(l, Penalties(evidence, score));
    }
  }

  /** Conservation: what the four layers are charged, before clamping, is the sum of the listed amounts. */
  lemma {:induction false} PenaltiesConserved(evidence: seq<Evidence>, score: Scorer)
    ensures LayerPenalty(evidence, score, Cause) + LayerPenalty(evidence, score, Sponsor)
            + LayerPenalty(evidence, score, Structure) + LayerPenalty(evidence, score, Flow)
            == SumBy(Amount(), Penalties(evidence, score))
  {
    PenaltiesWellFormed(evidence, score);
    HalvesAddUp(Penalties(evidence, score));
  }

  lemma {:induction false} TotalOfFour(s: seq<LayerScore>)
    requires |s| == 4
    ensures Total(s) == s[0].finalScore + s[1].finalScore + s[2].finalScore + s[3].finalScore
  {
    assert s[..3][..2] == s[..2] && s[..2][..1] == s[..1] && s[..1][..0] == [];
    assert Total(s[..1]) == s[0].finalScore;
    assert Total(s[..2]) == s[0].finalScore + s[1].finalScore;
    assert Total(s[..3]) == s[0].finalScore + s[1].finalScore + s[2].finalScore;
  }

  function FinalScore(evidence: seq<Evidence>, score: Scorer, layer: Layer): real {
    ScoreOf(evidence, score, layer).finalScore
  }

  lemma {:induction false} Stage1IsSum(evidence: seq<Evidence>, score: Scorer)
    ensures Stage1Score(evidence, score)
            == FinalScore(evidence, score, Cause) + FinalScore(evidence, score, Sponsor)
               + FinalScore(evidence, score, Structure) + FinalScore(evidence, score, Flow)
  {
    TotalOfFour(LayerScores(evidence, score));
  }

  /** The stage-1 score lies between 0 and 28, the sum of the caps. */
  lemma {:induction false} Stage1Bounds(evidence: seq<Evidence>, score: Scorer)
    ensures 0.0 <= Stage1Score(evidence, score) <= 28.0
    ensures forall l: Layer :: 0.0 <= FinalScore(evidence, score, l) <= Maximum(l)
  {
    Stage1IsSum(evidence, score);
    PenaltiesWellFormed(evidence, score);
    forall l: Layer ensures 0.0 <= FinalScore(evidence, score, l) <= Maximum(l) {
      ScoreBounds(l, RawScore(evidence, score, l), LayerPenalty(evidence, score, l));
    }
  }

  // ---------- order independence ----------

  /** `Strongest` is the maximum over the items that name the key, so it sees the set of items only. */
  lemma {:induction false} StrongestIsMaximum(evidence: seq<Evidence>, score: Scorer, layer: Layer, key: string)
    ensures forall e :: e in evidence && Names(e, score, layer, key) ==>
              score(e) <= Strongest(evidence, score, layer, key)
    ensures 0.0 < Strongest(evidence, score, layer, key) ==>
              exists e :: e in evidence && Names(e, score, layer, key)
                  && score(e) == Strongest(evidence, score, layer, key)
  {
    if evidence != [] {
      var n := |evidence| - 1;
      StrongestIsMaximum(evidence[..n], score, layer, key);
      assert forall e :: e in evidence <==> e in evidence[..n] || e == evidence[n];
      if 0.0 < Strongest(evidence, score, layer, key) {
        if Names(evidence[n], score, layer, key) && Strongest(evidence, score, layer, key) == score(evidence[n]) {
          assert evidence[n] in evidence;
        }
      }
    }
  }

  lemma {:induction false} StrongestIgnoresOrder(evidence: seq<Evidence>, other: seq<Evidence>, score: Scorer,
                                                 layer: Layer, key: string)
    requires SameMembers(evidence, other)
    ensures Strongest(evidence, score, layer, key) == Strongest(other, score, layer, key)
  {
    StrongestIsMaximum(evidence, score, layer, key);
    StrongestIsMaximum(other, score, layer, key);
  }

  lemma {:induction false} AllKeysMembers(evidence: seq<Evidence>, key: string)
    ensures key in AllKeys(evidence) <==> exists e :: e in evidence && key in e.rawInputKeys
  {
    if evidence != [] {
      var n := |evidence| - 1;
      AllKeysMembers(evidence[..n], key);
      assert forall e :: e in evidence <==> e in evidence[..n] || e == evidence[n];
    }
  }

  lemma {:induction false} PairPenaltiesIgnoreOrder(evidence: seq<Evidence>, other: seq<Evidence>, score: Scorer,
                                                    left: Layer, right: Layer, keys: seq<string>)
    requires SameMembers(evidence, other)
    ensures PairPenalties(evidence, score, left, right, keys) == PairPenalties(other, score, left, right, keys)
  {
    if keys != [] {
      var n := |keys| - 1;
      PairPenaltiesIgnoreOrder(evidence, other, score, left, right, keys[..n]);
      StrongestIgnoresOrder(evidence, other, score, left, keys[n]);
      StrongestIgnoresOrder(evidence, other, score, right, keys[n]);
    }
  }

  lemma {:induction false} SortedKeysIgnoreOrder(evidence: seq<Evidence>, other: seq<Evidence>)
    requires SameMembers(evidence, other)
    ensures SortedKeys(evidence) == SortedKeys(other)
  {
    forall key ensures key in AllKeys(evidence) <==> key in AllKeys(other) {
      AllKeysMembers(evidence, key);
      AllKeysMembers(other, key);
    }
    OrdersAreTotal();
    SortDistinctDependsOnMembers(StringLe, AllKeys(evidence), AllKeys(other));
  }

  lemma {:induction false} PenaltiesOfPairsIgnoreOrder(evidence: seq<Evidence>, other: seq<Evidence>, score: Scorer,
                                                       pairs: seq<(Layer, Layer)>)
    requires SameMembers(evidence, other)
    ensures PenaltiesOfPairs(evidence, score, pairs) == PenaltiesOfPairs(other, score, pairs)
  {
    if pairs != [] {
      var n := |pairs| - 1;
      PenaltiesOfPairsIgnoreOrder(evidence, other, score, pairs[..n]);
      SortedKeysIgnoreOrder(evidence, other);
      PairPenaltiesIgnoreOrder(evidence, other, score, pairs[n].0, pairs[n].1, SortedKeys(evidence));
    }
  }

  /** Permuting the evidence changes no layer score, no listed penalty and no total. */
  lemma {:induction false} ScoringIgnoresOrder(evidence: seq<Evidence>, other: seq<Evidence>, score: Scorer)
    requires multiset(evidence) == multiset(other)
    ensures Penalties(evidence, score) == Penalties(other, score)
    ensures LayerScores(evidence, score) == LayerScores(other, score)
    ensures Stage1Score(evidence, score) == Stage1Score(other, score)
  {
    forall e ensures e in evidence <==> e in other {
      assert e in evidence <==> e in multiset(evidence);
      assert e in other <==> e in multiset(other);
    }
    PenaltiesOfPairsIgnoreOrder(evidence, other, score, PAIRS);
    forall l: Layer ensures RawScore(evidence, score, l) == RawScore(other, score, l) {
      SumByPermutation(LayerTerm(score, l), evidence, other);
    }
  }

  // ---------- what one key costs ----------

  /** What a shared key charges each of the two layers. */
  function KeyCharge(evidence: seq<Evidence>, score: Scorer, layer: Layer, other: Layer): string -> real {
    (key: string) => 0.15 * Min(Strongest(evidence, score, layer, key), Strongest(evidence, score, other, key))
  }

  function PairCharge(evidence: seq<Evidence>, score: Scorer, layer: Layer, other: Layer, keys: seq<string>): real {
    SumBy(KeyCharge(evidence, score, layer, other), keys)
  }

  lemma {:induction false} PairChargeIs(evidence: seq<Evidence>, score: Scorer, left: Layer, right: Layer,
                                        keys: seq<string>, layer: Layer)
    requires left != right
    ensures SumBy(HalfOn(layer), PairPenalties(evidence, score, left, right, keys))
            == if layer == left || layer == right then PairCharge(evidence, score, left, right, keys) else 0.0
  {
    if keys != [] {
      var n := |keys| - 1;
      PairChargeIs(evidence, score, left, right, keys[..n], layer);
      var earlier := PairPenalties(evidence, score, left, right, keys[..n]);
      var p := Penalty(left, right, keys[n], PairAmount(evidence, score, left, right, keys[n]));
      SumBySnoc(HalfOn(layer), earlier, p);
    }
  }

  lemma {:induction false} PairChargeSymmetric(evidence: seq<Evidence>, score: Scorer, left: Layer, right: Layer,
                                               keys: seq<string>)
    ensures PairCharge(evidence, score, left, right, keys) == PairCharge(evidence, score, right, left, keys)
  {
    SumByEqual(KeyCharge(evidence, score, left, right), KeyCharge(evidence, score, right, left), keys);
  }

  /** The three other layers. */
  function Others(layer: Layer): (Layer, Layer, Layer) {
    match layer
    case Cause => (Sponsor, Structure, Flow)
    case Sponsor => (Cause, Structure, Flow)
    case Structure => (Cause, Sponsor, Flow)
    case Flow => (Cause, Sponsor, Structure)
  }

  /** The charges of the first `k` pairs, and of the pair in position `k`. */
  function ChargedBy(evidence: seq<Evidence>, score: Scorer, layer: Layer, k: nat): real
    requires k <= 6
  {
    SumBy(HalfOn(layer), PenaltiesOfPairs(evidence, score, PAIRS[..k]))
  }

  function ChargedAt(evidence: seq<Evidence>, score: Scorer, layer: Layer, k: nat): real
    requires k < 6
  {
    if layer == PAIRS[k].0 || layer == PAIRS[k].1 then
      PairCharge(evidence, score, PAIRS[k].0, PAIRS[k].1, SortedKeys(evidence))
    else 0.0
  }

  lemma {:induction false} ChargedStep(evidence: seq<Evidence>, score: Scorer, layer: Layer, k: nat)
    requires k < 6
    ensures ChargedBy(evidence, score, layer, k + 1)
            == ChargedBy(evidence, score, layer, k) + ChargedAt(evidence, score, layer, k)
  {
    PenaltiesOfPairsSnoc(evidence, score, PAIRS, k);
    SumByConcat(HalfOn(layer), PenaltiesOfPairs(evidence, score, PAIRS[..k]),
                PairPenalties(evidence, score, PAIRS[k].0, PAIRS[k].1, SortedKeys(evidence)));
    PairChargeIs(evidence, score, PAIRS[k].0, PAIRS[k].1, SortedKeys(evidence), layer);
  }

  lemma {:induction false} ChargedEnds(evidence: seq<Evidence>, score: Scorer, layer: Layer)
    ensures ChargedBy(evidence, score, layer, 0) == 0.0
    ensures ChargedBy(evidence, score, layer, 6) == LayerPenalty(evidence, score, layer)
  {
    assert PAIRS[..0] == [] && PAIRS[..6] == PAIRS;
  }

  lemma {:induction false} LayerPenaltyIsSixCharges(evidence: seq<Evidence>, score: Scorer, layer: Layer)
    ensures LayerPenalty(evidence, score, layer)
            == ChargedAt(evidence, score, layer, 0) + ChargedAt(evidence, score, layer, 1)
               + ChargedAt(evidence, score, layer, 2) + ChargedAt(evidence, score, layer, 3)
               + ChargedAt(evidence, score, layer, 4) + ChargedAt(evidence, score, layer, 5)
  {
    ChargedEnds(evidence, score, layer);
    ChargedStep(evidence, score, layer, 0);
    ChargedStep(evidence, score, layer, 1);
    ChargedStep(evidence, score, layer, 2);
    ChargedStep(evidence, score, layer, 3);
    ChargedStep(evidence, score, layer, 4);
    ChargedStep(evidence, score, layer, 5);
  }

  /** A layer is charged, key by key, for what it shares with each of the three other layers. */
  lemma {:induction false} LayerPenaltyIs(evidence: seq<Evidence>, score: Scorer, layer: Layer)
    ensures var keys := SortedKeys(evidence);
      LayerPenalty(evidence, score, layer)
      == PairCharge(evidence, score, layer, Others(layer).0, keys)
         + PairCharge(evidence, score, layer, Others(layer).1, keys)
         + PairCharge(evidence, score, layer, Others(layer).2, keys)
  {
    var keys := SortedKeys(evidence);
    LayerPenaltyIsSixCharges(evidence, score, layer);
    PairChargeSymmetric(evidence, score, layer, Others(layer).0, keys);
    PairChargeSymmetric(evidence, score, layer, Others(layer).1, keys);
    PairChargeSymmetric(evidence, score, layer, Others(layer).2, keys);
  }
}
