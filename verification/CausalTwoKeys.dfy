/**
 Adding positive evidence is not always worth something: with two raw keys that every other layer already uses, the
 independence penalties cost more than the contribution brings.
 */
module CausalTwoKeys {
  import opened Common
  import opened Ordering
  import opened Products
  import opened Sums
  import opened CausalEvidence
  import opened CausalScoring
  import opened CausalLaws
  import opened CausalKeyCost
  import opened CausalGain
  import opened CausalDecision

  const KEYS: seq<string> := ["a", "b"]

  /** Fresh official evidence of age zero. */
  function Item(id: string, layer: Layer, contribution: real, keys: seq<string>): Evidence {
    Evidence(id, layer, "GENERIC", contribution, 0.0, 0.0, Official, keys, None, None, None)
  }

  const CAUSE := Item("cause", Cause, 5.0, KEYS)
  const SPONSOR := Item("sponsor", Sponsor, 8.0, KEYS)
  const FLOW := Item("flow", Flow, 5.0, KEYS)
  const STRUCTURE := Item("structure", Structure, 3.0, [])
  const EXTRA := Item("extra", Structure, 1.0, KEYS)

  const BASE: seq<Evidence> := [] + [CAUSE] + [SPONSOR] + [FLOW] + [STRUCTURE]

  // ---------- the candidate ----------

  function WithEvidence(evidence: seq<Evidence>): Candidate {
    Candidate("TWOKEYS", 0.0, evidence, [], None, Production)
  }

  /** The evidence, with and without the further item, is evidence the engine accepts. */
  lemma {:induction false} EvidenceIsAccepted()
    ensures UniqueIds(BASE) && AllEvidenceValid(BASE)
    ensures UniqueIds(BASE + [EXTRA]) && AllEvidenceValid(BASE + [EXTRA])
  {
    var all := BASE + [EXTRA];
    assert all[0].id[0] == 'c' && all[1].id[1] == 'p' && all[2].id[0] == 'f' && all[3].id[1] == 't'
      && all[4].id[0] == 'e';
    assert all[1].id[0] == 's' && all[3].id[0] == 's';
    forall i, j | 0 <= i < j < 5 ensures all[i].id != all[j].id {
      assert (i == 1 && j == 3) || all[i].id[0] != all[j].id[0];
    }
    assert forall i :: 0 <= i < |BASE| ==> BASE[i] == all[i];
  }

  /** A scorer that counts fresh evidence in full. */
  ghost predicate InFull(score: Scorer) {
    forall id, layer, contribution, keys :: score(Item(id, layer, contribution, keys)) == contribution
  }

  lemma {:induction false} DecayCountsInFull(decay: real -> real)
    requires IsDecay(decay)
    ensures InFull(ScorerAt(0.0, decay))
  {
    forall id, layer, contribution, keys
      ensures ScorerAt(0.0, decay)(Item(id, layer, contribution, keys)) == contribution
    {
    }
  }

  // ---------- the scores before the item ----------

  /** The strongest contribution a layer has for either key. */
  function Level(layer: Layer): real {
    match layer
    case Cause => 5.0
    case Sponsor => 8.0
    case Structure => 0.0
    case Flow => 5.0
  }

  function Raw(layer: Layer): real {
    if layer == Structure then 3.0 else Level(layer)
  }

  lemma {:induction false} BaseStrongest(score: Scorer, layer: Layer, key: string)
    requires InFull(score) && key in KEYS
    ensures Strongest(BASE, score, layer, key) == Level(layer)
  {
    StrongestSnoc([], CAUSE, score, layer, key);
    StrongestSnoc([] + [CAUSE], SPONSOR, score, layer, key);
    StrongestSnoc([] + [CAUSE] + [SPONSOR], FLOW, score, layer, key);
    StrongestSnoc([] + [CAUSE] + [SPONSOR] + [FLOW], STRUCTURE, score, layer, key);
  }

  lemma {:induction false} BaseRawScore(score: Scorer, layer: Layer)
    requires InFull(score)
    ensures RawScore(BASE, score, layer) == Raw(layer)
  {
    RawScoreSnoc([], CAUSE, score, layer);
    RawScoreSnoc([] + [CAUSE], SPONSOR, score, layer);
    RawScoreSnoc([] + [CAUSE] + [SPONSOR], FLOW, score, layer);
    RawScoreSnoc([] + [CAUSE] + [SPONSOR] + [FLOW], STRUCTURE, score, layer);
  }

  /** A term that is the same for both keys counts twice. */
  lemma {:induction false} SumOverKeys(f: string -> real, v: real)
    requires f("a") == v && f("b") == v
    ensures SumBy(f, KEYS) == 2.0 * v
  {
    SumByConstant(f, v, KEYS);
    assert Times(v, 2.0) == 2.0 * v;
  }

  /** The example uses the two keys only. */
  lemma {:induction false} KeysOfTheExample()
    ensures Distinct(KEYS)
    ensures Distinct(SortedKeys(BASE)) && forall k :: k in SortedKeys(BASE) ==> k in KEYS
    ensures Distinct(OwnKeys(EXTRA)) && forall k :: k in OwnKeys(EXTRA) <==> k in KEYS
  {
    assert KEYS[0][0] != KEYS[1][0];
    OrdersAreTotal();
    SortDistinctIsSorted(StringLe, AllKeys(BASE));
    SortDistinctIsSorted(StringLe, KEYS);
    forall k | k in AllKeys(BASE) ensures k in KEYS {
      AllKeysMembers(BASE, k);
      var e :| e in BASE && k in e.rawInputKeys;
    }
  }

  lemma {:induction false} BaseCharge(score: Scorer, layer: Layer, other: Layer)
    requires InFull(score)
    ensures PairCharge(BASE, score, layer, other, SortedKeys(BASE)) == 0.3 * Min(Level(layer), Level(other))
  {
    KeysOfTheExample();
    PairChargeOver(BASE, score, layer, other, KEYS);
    forall k | k in KEYS
      ensures Strongest(BASE, score, layer, k) == Level(layer) && Strongest(BASE, score, other, k) == Level(other)
    {
      BaseStrongest(score, layer, k);
      BaseStrongest(score, other, k);
    }
    assert KEYS[0] in KEYS && KEYS[1] in KEYS;
    SumOverKeys(KeyCharge(BASE, score, layer, other), 0.15 * Min(Level(layer), Level(other)));
  }

  lemma {:induction false} BaseFinalScore(score: Scorer, layer: Layer)
    requires InFull(score)
    ensures LayerPenalty(BASE, score, layer) == if layer == Structure then 0.0 else 3.0
    ensures FinalScore(BASE, score, layer) == Raw(layer) - if layer == Structure then 0.0 else 3.0
  {
    LayerPenaltyIs(BASE, score, layer);
    BaseCharge(score, layer, Others(layer).0);
    BaseCharge(score, layer, Others(layer).1);
    BaseCharge(score, layer, Others(layer).2);
    BaseRawScore(score, layer);
  }

  // ---------- the cost of the item ----------

  lemma {:induction false} ExtraGrowth(score: Scorer, other: Layer)
    requires InFull(score) && other != Structure
    ensures Growth(BASE, EXTRA, score, other) == 0.3
  {
    KeysOfTheExample();
    forall k | k in KEYS ensures KeyGrowth(BASE, EXTRA, score, other)(k) == 0.15 {
      BaseStrongest(score, Structure, k);
      BaseStrongest(score, other, k);
    }
    assert KEYS[0] in KEYS && KEYS[1] in KEYS;
    assert forall i :: 0 <= i < |KEYS| ==> KEYS[i] in KEYS;
    SumBySupport(KeyGrowth(BASE, EXTRA, score, other), OwnKeys(EXTRA), KEYS);
    SumOverKeys(KeyGrowth(BASE, EXTRA, score, other), 0.15);
  }

  /** The item's layer has room for it, but its keys cost more than it brings. */
  lemma {:induction false} ExtraCost(score: Scorer)
    requires InFull(score)
    ensures HasRoom(BASE, EXTRA, score)
    ensures TotalCost(BASE, EXTRA, score) == 1.8
  {
    BaseRawScore(score, Structure);
    BaseFinalScore(score, Structure);
    forall l: Layer | l != Structure
      ensures Loss(BASE, EXTRA, score, l) == 0.3 && Growth(BASE, EXTRA, score, l) == 0.3
    {
      BaseFinalScore(score, l);
      ExtraGrowth(score, l);
    }
  }

  /**
   The limit of `EvidenceGain`: for every decay, one more item with two raw keys lowers the stage-1 score of a
   candidate by 0.8, although the item counts for one (`DecayCountsInFull`), the evidence is accepted
   (`EvidenceIsAccepted`) and the item's layer has room for it (`ExtraCost`).
   */
  lemma {:induction false} TwoKeysCanLowerTheScore(decay: real -> real)
    requires IsDecay(decay)
    ensures DraftOf(WithEvidence(BASE + [EXTRA]), decay).stage1Score
            == DraftOf(WithEvidence(BASE), decay).stage1Score - 0.8
  {
    DecayCountsInFull(decay);
    ExtraCost(ScorerAt(0.0, decay));
    EvidencePaysExactly(BASE, EXTRA, BASE + [EXTRA], ScorerAt(0.0, decay));
  }
}
