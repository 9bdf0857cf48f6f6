/**
 The rules for one transaction, stated outright: what the checks of the program, walked in
 their order, let through, is exactly what satisfies all of these conditions
 (noct/core/src/chain.rs, noct/core/src/tx.rs).
 */
module TxRules {
  import opened Types
  import opened Data
  import opened Oracles
  import opened Ledgers
  import opened Consensus
  import Difficulty
  import ShieldedPool

  /** No two elements are equal. */
  predicate AllDiffer<T(==)>(xs: seq<T>) {
    forall i, j :: 0 <= i < j < |xs| ==> xs[i] != xs[j]
  }

  lemma {:induction false} DistinctIff<T>(xs: seq<T>)
    ensures Distinct(xs) <==> AllDiffer(xs)
  {
    if xs != [] {
      DistinctIff(xs[1..]);
      assert xs == [xs[0]] + xs[1..];
      if AllDiffer(xs) {
        assert forall i, j :: 0 <= i < j < |xs[1..]| ==> xs[1..][i] == xs[i + 1] && xs[1..][j] == xs[j + 1];
      }
      if Distinct(xs) {
        forall i, j | 0 <= i < j < |xs|
          ensures xs[i] != xs[j]
        {
          assert i > 0 ==> xs[i] == xs[1..][i - 1];
          assert xs[j] == xs[1..][j - 1];
        }
      }
    }
  }

  lemma {:induction false} ConcatDiffers<T>(xs: seq<T>, ys: seq<T>)
    ensures AllDiffer(xs + ys) <==> AllDiffer(xs) && AllDiffer(ys) && forall x :: x in xs ==> x !in ys
  {
    var all := xs + ys;
    if AllDiffer(all) {
      assert forall i, j :: 0 <= i < j < |xs| ==> all[i] == xs[i] && all[j] == xs[j];
      forall i, j | 0 <= i < j < |ys|
        ensures ys[i] != ys[j]
      {
        assert all[|xs| + i] == ys[i] && all[|xs| + j] == ys[j];
      }
      forall x | x in xs
        ensures x !in ys
      {
        var i :| 0 <= i < |xs| && xs[i] == x;
        assert all[i] == x;
        assert forall j :: 0 <= j < |ys| ==> all[|xs| + j] == ys[j];
      }
    } else {
      var i, j :| 0 <= i < j < |all| && all[i] == all[j];
      if j < |xs| {
        assert xs[i] == xs[j];
      } else if i >= |xs| {
        assert ys[i - |xs|] == ys[j - |xs|];
      } else {
        assert xs[i] in xs && xs[i] == ys[j - |xs|] && ys[j - |xs|] in ys;
      }
    }
  }

  // --- against the chain ---------------------------------------------------

  /** An output of the chain that the next block may name: no coinbase younger than the maturity. */
  predicate MayBeNamed(s: Ledger, m: RingMember) {
    m in s.membership &&
    var index := s.membership[m];
    index < |s.meta| && (s.meta[index].coinbase ==> |s.ids| >= Min(s.meta[index].height + s.maturity, U64_MAX))
  }

  /** Sixteen members, all of which the next block may name. */
  predicate RingFits(s: Ledger, ring: seq<RingMember>) {
    |ring| == 16 && forall i :: 0 <= i < |ring| ==> MayBeNamed(s, ring[i])
  }

  /** A known anchor, and no nullifier that is spent. */
  predicate BundleFits(s: Ledger, bundle: Bundle) {
    && bundle.anchor in s.shielded.anchors
    && forall i :: 0 <= i < |bundle.actions| ==> bundle.actions[i].nullifier !in s.shielded.nullifiers
  }

  /** What the chain state has to say about a transaction. */
  predicate FitsChain(s: Ledger, tx: Transaction) {
    && (forall i :: 0 <= i < |tx.inputs| ==> RingFits(s, tx.inputs[i].ring) && tx.inputs[i].keyImage !in s.spent)
    && (tx.shielded.Some? ==> BundleFits(s, tx.shielded.value))
  }

  lemma {:induction false} RingVerdictIff(s: Ledger, ring: seq<RingMember>)
    ensures RingVerdict(s, ring).None? <==> forall i :: 0 <= i < |ring| ==> MayBeNamed(s, ring[i])
  {
    if ring != [] {
      RingVerdictIff(s, ring[1..]);
      assert forall i :: 1 <= i < |ring| ==> ring[i] == ring[1..][i - 1];
    }
  }

  lemma {:induction false} InputsVerdictIff(s: Ledger, inputs: seq<Input>)
    ensures InputsVerdict(s, inputs).None? <==> forall i :: 0 <= i < |inputs| ==> RingFits(s, inputs[i].ring)
  {
    if inputs != [] {
      RingVerdictIff(s, inputs[0].ring);
      InputsVerdictIff(s, inputs[1..]);
      assert forall i :: 1 <= i < |inputs| ==> inputs[i] == inputs[1..][i - 1];
    }
  }

  lemma {:induction false} NullifiersVerdictIff(s: Ledger, ns: seq<Bytes32>)
    ensures NullifiersVerdict(s, ns).None? <==> forall i :: 0 <= i < |ns| ==> ns[i] !in s.shielded.nullifiers
  {
    if ns != [] {
      NullifiersVerdictIff(s, ns[1..]);
      assert forall i :: 1 <= i < |ns| ==> ns[i] == ns[1..][i - 1];
    }
  }

  lemma {:induction false} ImagesMeet(tx: Transaction, spent: set<Bytes32>)
    ensures Meets(tx.KeyImages(), spent) <==> exists i :: 0 <= i < |tx.inputs| && tx.inputs[i].keyImage in spent
  {
    MeetsIff(tx.KeyImages(), spent);
    forall i | 0 <= i < |tx.inputs|
      ensures tx.inputs[i].keyImage in tx.KeyImages()
    {
      assert tx.KeyImages()[i] == tx.inputs[i].keyImage;
    }
  }

  lemma {:induction false} BundleVerdictIff(s: Ledger, bundle: Bundle)
    ensures BundleFits(s, bundle) <==>
              bundle.anchor in s.shielded.anchors && NullifiersVerdict(s, bundle.Nullifiers()).None?
  {
    NullifiersVerdictIff(s, bundle.Nullifiers());
    assert forall i :: 0 <= i < |bundle.actions| ==> bundle.Nullifiers()[i] == bundle.actions[i].nullifier;
  }

  /** The chain's lookups pass exactly the transactions that fit it. */
  lemma {:induction false} ChainVerdictIff(s: Ledger, tx: Transaction)
    ensures ChainVerdict(s, tx).None? <==> FitsChain(s, tx)
  {
    InputsVerdictIff(s, tx.inputs);
    ImagesMeet(tx, s.spent);
    if tx.shielded.Some? {
      BundleVerdictIff(s, tx.shielded.value);
    }
  }

  // --- by itself -----------------------------------------------------------

  /** Without a bundle: version 1, something on both sides, nothing crosses. With one: version 2, and it crosses. */
  predicate Sided(tx: Transaction) {
    match tx.shielded
    case None => tx.version == 1 && tx.inputs != [] && tx.outputs != [] && tx.cross == 0
    case Some(bundle) => tx.version == 2 && bundle.valueBalance != I64_MIN && tx.cross == -bundle.valueBalance
  }

  /** A key for each output, or none. */
  predicate KeysMatch(tx: Transaction) {
    tx.additionalTxPublic == [] || |tx.additionalTxPublic| == |tx.outputs|
  }

  /** A range proof exactly if there are outputs. */
  predicate RangeHolds(o: Crypto, tx: Transaction) {
    && (tx.outputs == [] <==> tx.rangeProof.None?)
    && (tx.rangeProof.Some? ==> o.rangeProofOk(tx.rangeProof.value, tx.OutputCommitments()))
  }

  predicate RingsSigned(o: Crypto, tx: Transaction) {
    forall i :: 0 <= i < |tx.inputs| ==> o.ringSignatureOk(tx.inputs[i], o.message(tx))
  }

  predicate Formed(tx: Transaction) {
    && Sided(tx) && KeysMatch(tx)
    && forall i, j :: 0 <= i < j < |tx.inputs| ==> tx.inputs[i].keyImage != tx.inputs[j].keyImage
  }

  lemma {:induction false} ShapeVerdictIff(tx: Transaction)
    ensures ShapeVerdict(tx).None? <==> Formed(tx)
  {
    DistinctIff(tx.KeyImages());
    assert forall i :: 0 <= i < |tx.inputs| ==> tx.KeyImages()[i] == tx.inputs[i].keyImage;
  }

  /** Outputs in range, every ring signed, and the two sides cancel in the group. */
  predicate Proves(o: Crypto, tx: Transaction) {
    && RangeHolds(o, tx) && RingsSigned(o, tx)
    && (SumMasks(o, tx.PseudoOuts()) - SumMasks(o, tx.OutputCommitments())) % GROUP_ORDER == 0
    && (SumAmounts(o, tx.PseudoOuts()) - SumAmounts(o, tx.OutputCommitments()) - tx.fee - tx.cross)
       % GROUP_ORDER == 0
  }

  lemma {:induction false} SignaturesIff(o: Crypto, inputs: seq<Input>, message: Bytes32)
    ensures SignaturesOk(o, inputs, message) <==>
              forall i :: 0 <= i < |inputs| ==> o.ringSignatureOk(inputs[i], message)
  {
    if inputs != [] {
      SignaturesIff(o, inputs[1..], message);
      assert forall i :: 1 <= i < |inputs| ==> inputs[i] == inputs[1..][i - 1];
    }
  }

  lemma {:induction false} Congruent(a: int, b: int, m: int)
    requires m > 0
    ensures a % m == b % m <==> (a - b) % m == 0
  {
    var x, y, z := a / m, b / m, (a - b) / m;
    assert a == x * m + a % m && b == y * m + b % m && a - b == z * m + (a - b) % m;
    assert a - b == (x - y) * m + (a % m - b % m);
    if a % m == b % m {
      assert (x - y - z) * m == (a - b) % m;
      Difficulty.SmallMultiple(x - y - z, m);
    }
    if (a - b) % m == 0 {
      assert (z - x + y) * m == a % m - b % m;
      Difficulty.SmallMultiple(z - x + y, m);
    }
  }

  /** The two sums the program compares are one difference. */
  lemma {:induction false} BalancesIff(
    o: Crypto, pseudoOuts: seq<Bytes32>, outputs: seq<Bytes32>, fee: U64, cross: I64)
    requires cross != I64_MIN
    ensures Balances(o, pseudoOuts, outputs, fee, cross).Some?
    ensures Balances(o, pseudoOuts, outputs, fee, cross).value <==>
              && (SumMasks(o, pseudoOuts) - SumMasks(o, outputs)) % GROUP_ORDER == 0
              && (SumAmounts(o, pseudoOuts) - SumAmounts(o, outputs) - fee - cross) % GROUP_ORDER == 0
  {
    var terms := CrossTerms(cross).value;
    Congruent(SumMasks(o, pseudoOuts), SumMasks(o, outputs), GROUP_ORDER);
    Congruent(SumAmounts(o, pseudoOuts) + terms.0, SumAmounts(o, outputs) + fee + terms.1, GROUP_ORDER);
  }

  lemma {:induction false} FormedCrossing(tx: Transaction)
    requires Formed(tx)
    ensures tx.cross != I64_MIN
  {
  }

  /** The checks that need no chain pass exactly the well-formed transactions whose proofs hold. */
  lemma {:induction false} BatchableVerdictIff(o: Crypto, tx: Transaction)
    ensures BatchableVerdict(o, tx).Ok? <==> Formed(tx) && Proves(o, tx)
    ensures BatchableVerdict(o, tx).Ok? ==>
              BatchableVerdict(o, tx).value == if tx.shielded.Some? then Some(o.bundleSighash(tx)) else None
  {
    ShapeVerdictIff(tx);
    if Formed(tx) {
      FormedCrossing(tx);
      SignaturesIff(o, tx.inputs, o.message(tx));
      BalancesIff(o, tx.PseudoOuts(), tx.OutputCommitments(), tx.fee, tx.cross);
    }
  }

  /** Fit for a block on this chain, its bundle's proof aside. */
  ghost predicate Acceptable(o: Crypto, s: Ledger, tx: Transaction) {
    FitsChain(s, tx) && Formed(tx) && Proves(o, tx)
  }

  lemma {:induction false} TxAcceptedIff(o: Crypto, s: Ledger, tx: Transaction)
    ensures TxAccepted(o, s, tx) <==> Acceptable(o, s, tx)
  {
    ChainVerdictIff(s, tx);
    BatchableVerdictIff(o, tx);
  }

  /** `validate_tx` passes exactly the transactions fit for a block whose bundle, if any, verifies by itself. */
  lemma {:induction false} TxVerdictIff(o: Crypto, s: Ledger, tx: Transaction)
    ensures TxVerdict(o, s, tx).None? <==>
              && Acceptable(o, s, tx)
              && (tx.shielded.Some? ==> o.bundleOk(tx.shielded.value, o.bundleSighash(tx)))
  {
    ChainVerdictIff(s, tx);
    BatchableVerdictIff(o, tx);
  }

  // --- the errors ----------------------------------------------------------

  /** The first position that fails. */
  ghost predicate FirstFailing<T(!new)>(xs: seq<T>, ok: T -> bool, i: nat) {
    i < |xs| && !ok(xs[i]) && forall j :: 0 <= j < i ==> ok(xs[j])
  }

  function Namable(s: Ledger): RingMember -> bool {
    (m: RingMember) => MayBeNamed(s, m)
  }

  function Fitting(s: Ledger): Input -> bool {
    (input: Input) => RingFits(s, input.ring)
  }

  /** What is wrong with a ring: its size, or the first member that may not be named. */
  ghost predicate RingFault(s: Ledger, ring: seq<RingMember>, e: ChainError) {
    if |ring| != 16 then e == BadRingSize
    else exists j: nat :: FirstFailing(ring, Namable(s), j)
                     && e == if ring[j] in s.membership then ImmatureCoinbase else UnknownRingMember
  }

  lemma {:induction false} RingFaultFound(s: Ledger, ring: seq<RingMember>) returns (j: nat)
    requires RingVerdict(s, ring).Some?
    ensures FirstFailing(ring, Namable(s), j)
    ensures RingVerdict(s, ring) == Some(if ring[j] in s.membership then ImmatureCoinbase else UnknownRingMember)
  {
    if !MayBeNamed(s, ring[0]) {
      j := 0;
    } else {
      j := RingFaultFound(s, ring[1..]);
      assert forall i :: 1 <= i < |ring| ==> ring[i] == ring[1..][i - 1];
      j := j + 1;
    }
  }

  lemma {:induction false} InputFaultFound(s: Ledger, inputs: seq<Input>) returns (i: nat)
    requires InputsVerdict(s, inputs).Some?
    ensures FirstFailing(inputs, Fitting(s), i) && RingFault(s, inputs[i].ring, InputsVerdict(s, inputs).value)
  {
    RingVerdictIff(s, inputs[0].ring);
    if !RingFits(s, inputs[0].ring) {
      i := 0;
      if |inputs[0].ring| == 16 {
        var j := RingFaultFound(s, inputs[0].ring);
      }
    } else {
      i := InputFaultFound(s, inputs[1..]);
      assert forall k :: 1 <= k < |inputs| ==> inputs[k] == inputs[1..][k - 1];
      i := i + 1;
    }
  }

  lemma {:induction false} NullifierFaultFound(s: Ledger, ns: seq<Bytes32>) returns (i: nat)
    requires NullifiersVerdict(s, ns).Some?
    ensures FirstFailing(ns, (n: Bytes32) => n !in s.shielded.nullifiers, i)
    ensures NullifiersVerdict(s, ns) == Some(ShieldedPart(ShieldedPool.DuplicateNullifier(ns[i])))
  {
    if ns[0] in s.shielded.nullifiers {
      i := 0;
    } else {
      i := NullifierFaultFound(s, ns[1..]);
      assert forall k :: 1 <= k < |ns| ==> ns[k] == ns[1..][k - 1];
      i := i + 1;
    }
  }

  /** The first rule a transaction breaks against the chain: rings in order, then images, anchor, nullifiers. */
  ghost predicate ChainFault(s: Ledger, tx: Transaction, e: ChainError) {
    if exists i: nat :: FirstFailing(tx.inputs, Fitting(s), i) then
      exists i: nat :: FirstFailing(tx.inputs, Fitting(s), i) && RingFault(s, tx.inputs[i].ring, e)
    else if exists i :: 0 <= i < |tx.inputs| && tx.inputs[i].keyImage in s.spent then e == DoubleSpend
    else if tx.shielded.None? then false
    else if tx.shielded.value.anchor !in s.shielded.anchors then
      e == ShieldedPart(ShieldedPool.UnknownAnchor(tx.shielded.value.anchor))
    else
      exists i: nat :: FirstFailing(tx.shielded.value.Nullifiers(), (n: Bytes32) => n !in s.shielded.nullifiers, i)
                  && e == ShieldedPart(ShieldedPool.DuplicateNullifier(tx.shielded.value.actions[i].nullifier))
  }

  lemma {:induction false} NoneFailing<T(!new)>(xs: seq<T>, ok: T -> bool)
    requires forall i :: 0 <= i < |xs| ==> ok(xs[i])
    ensures !exists i: nat :: FirstFailing(xs, ok, i)
  {
  }

  /** A refusal by the chain's lookups names the first rule broken. */
  lemma {:induction false} ChainVerdictReports(s: Ledger, tx: Transaction)
    requires ChainVerdict(s, tx).Some?
    ensures ChainFault(s, tx, ChainVerdict(s, tx).value)
  {
    InputsVerdictIff(s, tx.inputs);
    ImagesMeet(tx, s.spent);
    if InputsVerdict(s, tx.inputs).Some? {
      var i := InputFaultFound(s, tx.inputs);
    } else {
      NoneFailing(tx.inputs, Fitting(s));
      if tx.shielded.Some? && NullifiersVerdict(s, tx.shielded.value.Nullifiers()).Some? {
        var i := NullifierFaultFound(s, tx.shielded.value.Nullifiers());
      }
    }
  }

  /**
   The first rule a transaction breaks by itself, in the order of the program: what an
   error says is so, and what would have been reported earlier is in order. The error for
   a crossing without a negation is never given: the bundle is asked first.
   */
  predicate OwnFault(o: Crypto, tx: Transaction, e: TxError) {
    match e
    case NoInputs => tx.shielded.None? && tx.inputs == []
    case NoOutputs => tx.shielded.None? && tx.inputs != [] && tx.outputs == []
    case BadVersion =>
      (tx.shielded.None? ==> tx.inputs != [] && tx.outputs != []) &&
      tx.version != if tx.cross == 0 && tx.shielded.None? then 1 else 2
    case CrossWithoutBundle =>
      tx.shielded.None? && tx.inputs != [] && tx.outputs != [] && tx.version == 2 && tx.cross != 0
    case Shielded(cause) =>
      cause == UnrepresentableValue && tx.version == 2 && tx.shielded.Some? && tx.shielded.value.valueBalance == I64_MIN
    case CrossMismatch(ringSide, bundle) =>
      && tx.version == 2 && tx.shielded.Some? && ringSide == tx.cross
      && bundle + tx.shielded.value.valueBalance as int == 0 && bundle != ringSide
    case BadAdditionalKeys => Sided(tx) && !KeysMatch(tx)
    case DuplicateKeyImage => Sided(tx) && KeysMatch(tx) && !Formed(tx)
    case BadRangeProof => Formed(tx) && !RangeHolds(o, tx)
    case BadRingSignature => Formed(tx) && RangeHolds(o, tx) && !RingsSigned(o, tx)
    case Unbalanced => Formed(tx) && RangeHolds(o, tx) && RingsSigned(o, tx) && !Proves(o, tx)
    case BadCross => false
  }

  lemma {:induction false} ShapeVerdictReports(o: Crypto, tx: Transaction)
    requires ShapeVerdict(tx).Some?
    ensures OwnFault(o, tx, ShapeVerdict(tx).value)
  {
    ShapeVerdictIff(tx);
  }

  /** A refusal that needs no chain names the first rule broken. */
  lemma {:induction false} BatchableVerdictReports(o: Crypto, tx: Transaction)
    requires BatchableVerdict(o, tx).Err?
    ensures OwnFault(o, tx, BatchableVerdict(o, tx).error)
  {
    if ShapeVerdict(tx).Some? {
      ShapeVerdictReports(o, tx);
    } else {
      ShapeVerdictIff(tx);
      FormedCrossing(tx);
      SignaturesIff(o, tx.inputs, o.message(tx));
      BalancesIff(o, tx.PseudoOuts(), tx.OutputCommitments(), tx.fee, tx.cross);
    }
  }
}
