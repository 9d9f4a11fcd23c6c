/** The price of sharing raw keys: what one key can cost a layer, and which charges new evidence leaves alone. */
module CausalKeyCost {
  import opened Common
  import opened Ordering
  import opened Sums
  import opened CausalEvidence
  import opened CausalScoring
  import opened CausalLaws

  // ---------- one key on one layer ----------

  /** The part of a listed penalty that one key charges to one layer. */
  function HalfOnKey(layer: Layer, key: string): Penalty -> real {
    (p: Penalty) => if p.rawInputKey == key then HalfOn(layer)(p) else 0.0
  }

  /** Everything the listed penalties of one key charge to one layer. */
  function KeyPenalty(evidence: seq<Evidence>, score: Scorer, layer: Layer, key: string): real {
    SumBy(HalfOnKey(layer, key), Penalties(evidence, score))
  }

  lemma {:induction false} HalfOfPair(evidence: seq<Evidence>, score: Scorer, left: Layer, right: Layer,
                                      layer: Layer, key: string)
    requires left != right
    ensures HalfOn(layer)(Penalty(left, right, key, PairAmount(evidence, score, left, right, key)))
            <= if layer == left || layer == right then 0.15 * Strongest(evidence, score, layer, key) else 0.0
  {
  }

  lemma {:induction false} UnlistedKeyIsFree(evidence: seq<Evidence>, score: Scorer, left: Layer, right: Layer,
                                             keys: seq<string>, layer: Layer, key: string)
    requires key !in keys
    ensures SumBy(HalfOnKey(layer, key), PairPenalties(evidence, score, left, right, keys)) == 0.0
  {
    if keys != [] {
      var n := |keys| - 1;
      assert keys[n] in keys && forall k :: k in keys[..n] ==> k in keys;
      UnlistedKeyIsFree(evidence, score, left, right, keys[..n], layer, key);
      SumBySnoc(HalfOnKey(layer, key), PairPenalties(evidence, score, left, right, keys[..n]),
                Penalty(left, right, keys[n], PairAmount(evidence, score, left, right, keys[n])));
    }
  }

  lemma {:induction false} PairKeyPenalty(evidence: seq<Evidence>, score: Scorer, left: Layer, right: Layer,
                                          keys: seq<string>, layer: Layer, key: string)
    requires left != right && Distinct(keys)
    ensures SumBy(HalfOnKey(layer, key), PairPenalties(evidence, score, left, right, keys))
            <= if layer == left || layer == right then 0.15 * Strongest(evidence, score, layer, key) else 0.0
  {
    if keys != [] {
      var n := |keys| - 1;
      SumBySnoc(HalfOnKey(layer, key), PairPenalties(evidence, score, left, right, keys[..n]),
                Penalty(left, right, keys[n], PairAmount(evidence, score, left, right, keys[n])));
      if keys[n] == key {
        UnlistedKeyIsFree(evidence, score, left, right, keys[..n], layer, key);
        HalfOfPair(evidence, score, left, right, layer, key);
      } else {
        PairKeyPenalty(evidence, score, left, right, keys[..n], layer, key);
      }
    }
  }

  function KeyChargedBy(evidence: seq<Evidence>, score: Scorer, layer: Layer, key: string, k: nat): real
    requires k <= 6
  {
    SumBy(HalfOnKey(layer, key), PenaltiesOfPairs(evidence, score, PAIRS[..k]))
  }

  function KeyShare(evidence: seq<Evidence>, score: Scorer, layer: Layer, key: string, k: nat): real
    requires k < 6
  {
    if layer == PAIRS[k].0 || layer == PAIRS[k].1 then 0.15 * Strongest(evidence, score, layer, key) else 0.0
  }

  lemma {:induction false} KeyChargedStep(evidence: seq<Evidence>, score: Scorer, layer: Layer, key: string, k: nat)
    requires k < 6
    ensures KeyChargedBy(evidence, score, layer, key, k + 1)
            <= KeyChargedBy(evidence, score, layer, key, k) + KeyShare(evidence, score, layer, key, k)
  {
    var keys := SortedKeys(evidence);
    OrdersAreTotal();
    SortDistinctIsSorted(StringLe, AllKeys(evidence));
    PenaltiesOfPairsSnoc(evidence, score, PAIRS, k);
    SumByConcat(HalfOnKey(layer, key), PenaltiesOfPairs(evidence, score, PAIRS[..k]),
                PairPenalties(evidence, score, PAIRS[k].0, PAIRS[k].1, keys));
    PairKeyPenalty(evidence, score, PAIRS[k].0, PAIRS[k].1, keys, layer, key);
  }

  lemma {:induction false} KeyChargedEnds(evidence: seq<Evidence>, score: Scorer, layer: Layer, key: string)
    ensures KeyChargedBy(evidence, score, layer, key, 0) == 0.0
    ensures KeyChargedBy(evidence, score, layer, key, 6) == KeyPenalty(evidence, score, layer, key)
  {
    assert PAIRS[..0] == [] && PAIRS[..6] == PAIRS;
  }

  /** One raw key costs a layer at most 0.45 of the layer's strongest contribution for that key. */
  lemma {:induction false} SingleKeyBound(evidence: seq<Evidence>, score: Scorer, layer: Layer, key: string)
    ensures KeyPenalty(evidence, score, layer, key) <= 0.45 * Strongest(evidence, score, layer, key)
  {
    KeyChargedEnds(evidence, score, layer, key);
    KeyChargedStep(evidence, score, layer, key, 0);
    KeyChargedStep(evidence, score, layer, key, 1);
    KeyChargedStep(evidence, score, layer, key, 2);
    KeyChargedStep(evidence, score, layer, key, 3);
    KeyChargedStep(evidence, score, layer, key, 4);
    KeyChargedStep(evidence, score, layer, key, 5);
  }

  // ---------- one more item ----------

  lemma {:induction false} StrongestSnoc(evidence: seq<Evidence>, e: Evidence, score: Scorer, layer: Layer, key: string)
    ensures Strongest(evidence + [e], score, layer, key)
            == if Names(e, score, layer, key) then Max(Strongest(evidence, score, layer, key), score(e))
               else Strongest(evidence, score, layer, key)
  {
    assert (evidence + [e])[..|evidence|] == evidence;
  }

  lemma {:induction false} RawScoreSnoc(evidence: seq<Evidence>, e: Evidence, score: Scorer, layer: Layer)
    ensures RawScore(evidence + [e], score, layer)
            == RawScore(evidence, score, layer) + if e.layer == layer then score(e) else 0.0
  {
    SumBySnoc(LayerTerm(score, layer), evidence, e);
  }

  /** Both key lists are distinct; the longer evidence has the keys of the shorter and of the new item. */
  lemma {:induction false} KeysGrow(evidence: seq<Evidence>, e: Evidence)
    ensures Distinct(SortedKeys(evidence)) && Distinct(SortedKeys(evidence + [e]))
    ensures Distinct(SortDistinct(StringLe, e.rawInputKeys))
    ensures forall k :: k in SortedKeys(evidence) ==> k in SortedKeys(evidence + [e])
    ensures forall k :: k in SortDistinct(StringLe, e.rawInputKeys) <==> k in e.rawInputKeys
    ensures forall k :: k in e.rawInputKeys ==> k in SortedKeys(evidence + [e])
  {
    OrdersAreTotal();
    SortDistinctIsSorted(StringLe, AllKeys(evidence));
    SortDistinctIsSorted(StringLe, AllKeys(evidence + [e]));
    SortDistinctIsSorted(StringLe, e.rawInputKeys);
    assert (evidence + [e])[..|evidence|] == evidence;
    assert AllKeys(evidence + [e]) == AllKeys(evidence) + e.rawInputKeys;
  }

  lemma {:induction false} UnlistedKeyHasNoStrongest(evidence: seq<Evidence>, score: Scorer, layer: Layer, key: string)
    requires key !in SortedKeys(evidence)
    ensures Strongest(evidence, score, layer, key) == 0.0
  {
    OrdersAreTotal();
    SortDistinctIsSorted(StringLe, AllKeys(evidence));
    AllKeysMembers(evidence, key);
    StrongestIsMaximum(evidence, score, layer, key);
  }

  /** A pair's charge may be summed over any larger list of keys. */
  lemma {:induction false} PairChargeOver(evidence: seq<Evidence>, score: Scorer, layer: Layer, other: Layer,
                                          keys: seq<string>)
    requires Distinct(SortedKeys(evidence)) && Distinct(keys)
    requires forall k :: k in SortedKeys(evidence) ==> k in keys
    ensures PairCharge(evidence, score, layer, other, SortedKeys(evidence))
            == PairCharge(evidence, score, layer, other, keys)
  {
    var charge := KeyCharge(evidence, score, layer, other);
    forall i | 0 <= i < |keys| && keys[i] !in SortedKeys(evidence) ensures charge(keys[i]) == 0.0 {
      UnlistedKeyHasNoStrongest(evidence, score, layer, keys[i]);
      UnlistedKeyHasNoStrongest(evidence, score, other, keys[i]);
    }
    SumBySupport(charge, SortedKeys(evidence), keys);
  }

  /** The new item leaves the charges between two other layers alone. */
  lemma {:induction false} OtherPairUnchanged(evidence: seq<Evidence>, e: Evidence, score: Scorer, layer: Layer,
                                              other: Layer)
    requires layer != e.layer && other != e.layer
    ensures PairCharge(evidence + [e], score, layer, other, SortedKeys(evidence + [e]))
            == PairCharge(evidence, score, layer, other, SortedKeys(evidence))
  {
    KeysGrow(evidence, e);
    var keys := SortedKeys(evidence + [e]);
    PairChargeOver(evidence, score, layer, other, keys);
    forall i | 0 <= i < |keys|
      ensures KeyCharge(evidence + [e], score, layer, other)(keys[i])
              == KeyCharge(evidence, score, layer, other)(keys[i])
    {
      StrongestSnoc(evidence, e, score, layer, keys[i]);
      StrongestSnoc(evidence, e, score, other, keys[i]);
    }
    SumByEqual(KeyCharge(evidence + [e], score, layer, other), KeyCharge(evidence, score, layer, other), keys);
  }
}
