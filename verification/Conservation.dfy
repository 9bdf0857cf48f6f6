/**
 Value conservation of the ring pool. Against sound signatures and range proofs every
 output is consumed at most once, and the turnstile's ring total is the sum of the
 hidden amounts of the outputs not yet consumed - as integers, although the program
 only checks an equation modulo the group order.
 */
module Conservation {
  import opened Types
  import opened Data
  import opened Oracles
  import opened Ledgers
  import opened Replay
  import opened Consensus
  import opened Supply

  function Amount(o: Crypto, m: RingMember): nat {
    o.opening(m.commitment).amount
  }

  predicate SpendsOne(o: Crypto, input: Input) {
    && o.realIndex(input) < |input.ring|
    && Amount(o, input.ring[o.realIndex(input)]) == o.opening(input.pseudoOut).amount
    && o.keyImageOf(input.ring[o.realIndex(input)].key) == input.keyImage
  }

  predicate InRange(o: Crypto, cs: seq<Bytes32>) {
    forall i :: 0 <= i < |cs| ==> o.opening(cs[i]).amount < TWO_64
  }

  /**
   What the signature and proof systems promise. A ring signature shows that its signer
   spends one ring member: same amount, and the image of that member's key. A range
   proof shows that every amount is below 2^64.
   */
  ghost predicate Sound(o: Crypto) {
    && (forall input, message :: o.ringSignatureOk(input, message) ==> SpendsOne(o, input))
    && (forall proof, cs :: o.rangeProofOk(proof, cs) ==> |cs| <= MAX_COMMITMENTS && InRange(o, cs))
    && (forall amount: U64 :: o.opening(o.coinbaseCommitment(amount)).amount == amount)
  }

  function Amounts(o: Crypto, ms: seq<RingMember>): nat {
    if ms == [] then 0 else Amount(o, ms[0]) + Amounts(o, ms[1..])
  }

  /** The ring member an input really spends. */
  function RealMember(o: Crypto, input: Input): RingMember {
    if o.realIndex(input) < |input.ring| then input.ring[o.realIndex(input)] else RingMember(0, 0)
  }

  function Consumes(o: Crypto, inputs: seq<Input>): (ms: seq<RingMember>)
    ensures |ms| == |inputs|
  {
    if inputs == [] then [] else [RealMember(o, inputs[0])] + Consumes(o, inputs[1..])
  }

  function ConsumedByTxs(o: Crypto, txs: seq<Transaction>): seq<RingMember> {
    if txs == [] then [] else Consumes(o, txs[0].inputs) + ConsumedByTxs(o, txs[1..])
  }

  /** Everything consumed on a chain, oldest first. */
  function Consumed(o: Crypto, blocks: seq<StoredBlock>): seq<RingMember> {
    if blocks == [] then []
    else
      var last := |blocks| - 1;
      Consumed(o, blocks[..last]) + ConsumedByTxs(o, blocks[last].txs)
  }

  /** Total amount of the outputs that are not in `consumed`. */
  function Unspent(o: Crypto, outputs: seq<RingMember>, consumed: set<RingMember>): nat {
    if outputs == [] then 0
    else (if outputs[0] in consumed then 0 else Amount(o, outputs[0])) + Unspent(o, outputs[1..], consumed)
  }

  // --- one transaction -----------------------------------------------------

  lemma {:induction false} AmountsConcat(o: Crypto, xs: seq<RingMember>, ys: seq<RingMember>)
    ensures Amounts(o, xs + ys) == Amounts(o, xs) + Amounts(o, ys)
  {
    if xs == [] {
      assert xs + ys == ys;
    } else {
      assert (xs + ys)[1..] == xs[1..] + ys;
      AmountsConcat(o, xs[1..], ys);
    }
  }

  predicate AllSpendOne(o: Crypto, inputs: seq<Input>) {
    forall i :: 0 <= i < |inputs| ==> SpendsOne(o, inputs[i])
  }

  lemma {:induction false} SignedInputsSpend(o: Crypto, inputs: seq<Input>, message: Bytes32)
    requires Sound(o) && SignaturesOk(o, inputs, message)
    ensures AllSpendOne(o, inputs)
  {
    if inputs != [] {
      SignedInputsSpend(o, inputs[1..], message);
      assert o.ringSignatureOk(inputs[0], message);
      assert inputs == [inputs[0]] + inputs[1..];
    }
  }

  predicate AmountsSmall(o: Crypto, ms: seq<RingMember>) {
    forall i :: 0 <= i < |ms| ==> Amount(o, ms[i]) < TWO_64
  }

  lemma {:induction false} SmallAmountsSum(o: Crypto, ms: seq<RingMember>)
    requires AmountsSmall(o, ms)
    ensures Amounts(o, ms) <= |ms| * U64_MAX
  {
    if ms != [] {
      SmallAmountsSum(o, ms[1..]);
    }
  }

  lemma {:induction false} PseudoOutsSum(o: Crypto, inputs: seq<Input>, cs: seq<Bytes32>)
    requires AllSpendOne(o, inputs) && |cs| == |inputs|
    requires forall i :: 0 <= i < |inputs| ==> cs[i] == inputs[i].pseudoOut
    ensures SumAmounts(o, cs) == Amounts(o, Consumes(o, inputs))
  {
    if inputs != [] {
      PseudoOutsSum(o, inputs[1..], cs[1..]);
      assert Consumes(o, inputs)[1..] == Consumes(o, inputs[1..]);
      assert SpendsOne(o, inputs[0]);
    }
  }

  lemma {:induction false} CommitmentsSum(o: Crypto, ms: seq<RingMember>, cs: seq<Bytes32>)
    requires |cs| == |ms| && forall i :: 0 <= i < |ms| ==> cs[i] == ms[i].commitment
    ensures SumAmounts(o, cs) == Amounts(o, ms)
  {
    if ms != [] {
      CommitmentsSum(o, ms[1..], cs[1..]);
    }
  }

  lemma {:induction false} RingMembersExist(s: Ledger, ring: seq<RingMember>, i: nat)
    requires i < |ring| && RingVerdict(s, ring).None?
    ensures ring[i] in s.membership
  {
    if i > 0 {
      RingMembersExist(s, ring[1..], i - 1);
    }
  }

  lemma {:induction false} RealMembersExist(o: Crypto, s: Ledger, inputs: seq<Input>)
    requires AllSpendOne(o, inputs) && InputsVerdict(s, inputs).None?
    ensures forall m :: m in Consumes(o, inputs) ==> m in s.membership
  {
    if inputs != [] {
      RealMembersExist(o, s, inputs[1..]);
      assert SpendsOne(o, inputs[0]);
      RingMembersExist(s, inputs[0].ring, o.realIndex(inputs[0]));
    }
  }

  /** The longest list a 64-bit program can hold. */
  const MAX_LENGTH: nat := U64_MAX

  /** Equal modulo the group order and both below it: equal. */
  lemma LiftsToIntegers(a: nat, b: nat)
    requires a % GROUP_ORDER == b % GROUP_ORDER && a < GROUP_ORDER && b < GROUP_ORDER
    ensures a == b
  {
  }

  lemma SidesBelowOrder(inputs: nat, outputs: nat, fee: U64, up: U64, down: U64)
    requires inputs <= MAX_LENGTH * U64_MAX && outputs <= MAX_COMMITMENTS * U64_MAX
    ensures inputs + up < GROUP_ORDER && outputs + fee + down < GROUP_ORDER
  {
  }

  /** What an accepted transaction does to the ring pool, in integers. */
  ghost predicate TxConserves(o: Crypto, s: Ledger, tx: Transaction) {
    && AllSpendOne(o, tx.inputs)
    && (forall m :: m in Consumes(o, tx.inputs) ==> m in s.membership)
    && AmountsSmall(o, tx.OutputRefs())
    && Amounts(o, Consumes(o, tx.inputs)) == Amounts(o, tx.OutputRefs()) + tx.fee + tx.cross
    && tx.cross == if tx.shielded.Some? then -(tx.shielded.value.valueBalance as int) else 0
  }

  lemma OutputsInRange(o: Crypto, tx: Transaction)
    requires Sound(o) && RangeOk(o, tx)
    ensures AmountsSmall(o, tx.OutputRefs()) && |tx.outputs| <= MAX_COMMITMENTS
  {
    if tx.rangeProof.Some? {
      var cs := tx.OutputCommitments();
      assert o.rangeProofOk(tx.rangeProof.value, cs);
      forall i | 0 <= i < |tx.outputs|
        ensures Amount(o, tx.OutputRefs()[i]) < TWO_64
      {
        assert o.opening(cs[i]).amount < TWO_64;
      }
    }
  }

  lemma BalanceLifts(o: Crypto, consumed: nat, produced: nat, fee: U64, cross: I64)
    requires CrossTerms(cross).Some?
    requires consumed <= MAX_LENGTH * U64_MAX && produced <= MAX_COMMITMENTS * U64_MAX
    requires var terms := CrossTerms(cross).value;
             (consumed + terms.0) % GROUP_ORDER == (produced + fee + terms.1) % GROUP_ORDER
    ensures consumed == produced + fee + cross
  {
    var terms := CrossTerms(cross).value;
    SidesBelowOrder(consumed, produced, fee, terms.0, terms.1);
    LiftsToIntegers(consumed + terms.0, produced + fee + terms.1);
  }

  lemma SizeBound(o: Crypto, ms: seq<RingMember>, most: nat)
    requires AmountsSmall(o, ms) && |ms| <= most
    ensures Amounts(o, ms) <= most * U64_MAX
  {
    SmallAmountsSum(o, ms);
    assert |ms| * U64_MAX <= most * U64_MAX;
  }

  lemma VerdictFacts(o: Crypto, tx: Transaction)
    requires BatchableVerdict(o, tx).Ok?
    ensures ShapeVerdict(tx).None? && RangeOk(o, tx) && SignaturesOk(o, tx.inputs, o.message(tx))
    ensures Balances(o, tx.PseudoOuts(), tx.OutputCommitments(), tx.fee, tx.cross) == Some(true)
    ensures tx.cross == if tx.shielded.Some? then -(tx.shielded.value.valueBalance as int) else 0
  {
  }

  lemma InputsAddUp(o: Crypto, s: Ledger, tx: Transaction)
    requires AllSpendOne(o, tx.inputs) && InputsVerdict(s, tx.inputs).None?
    requires forall m :: m in s.membership ==> Amount(o, m) < TWO_64
    ensures forall m :: m in Consumes(o, tx.inputs) ==> m in s.membership
    ensures AmountsSmall(o, Consumes(o, tx.inputs))
    ensures SumAmounts(o, tx.PseudoOuts()) == Amounts(o, Consumes(o, tx.inputs))
  {
    RealMembersExist(o, s, tx.inputs);
    PseudoOutsSum(o, tx.inputs, tx.PseudoOuts());
    var consumed := Consumes(o, tx.inputs);
    forall i | 0 <= i < |consumed|
      ensures Amount(o, consumed[i]) < TWO_64
    {
      assert consumed[i] in consumed;
    }
  }

  /** The verified parts of a transaction add up. */
  lemma ConservesFromParts(o: Crypto, s: Ledger, tx: Transaction)
    requires AllSpendOne(o, tx.inputs) && InputsVerdict(s, tx.inputs).None? && |tx.inputs| <= MAX_LENGTH
    requires AmountsSmall(o, tx.OutputRefs()) && |tx.outputs| <= MAX_COMMITMENTS
    requires forall m :: m in s.membership ==> Amount(o, m) < TWO_64
    requires Balances(o, tx.PseudoOuts(), tx.OutputCommitments(), tx.fee, tx.cross) == Some(true)
    ensures forall m :: m in Consumes(o, tx.inputs) ==> m in s.membership
    ensures Amounts(o, Consumes(o, tx.inputs)) == Amounts(o, tx.OutputRefs()) + tx.fee + tx.cross
  {
    InputsAddUp(o, s, tx);
    var consumed, produced := Consumes(o, tx.inputs), tx.OutputRefs();
    CommitmentsSum(o, produced, tx.OutputCommitments());
    SizeBound(o, consumed, MAX_LENGTH);
    SizeBound(o, produced, MAX_COMMITMENTS);
    BalanceLifts(o, Amounts(o, consumed), Amounts(o, produced), tx.fee, tx.cross);
  }

  /**
   An accepted transaction conserves value in the integers: its real inputs are worth
   its outputs, its fee and what it moves to the other pool.
   */
  lemma AcceptedTxConserves(o: Crypto, s: Ledger, tx: Transaction)
    requires Sound(o) && TxAccepted(o, s, tx)
    requires |tx.inputs| <= MAX_LENGTH
    requires forall m :: m in s.membership ==> Amount(o, m) < TWO_64
    ensures TxConserves(o, s, tx)
  {
    VerdictFacts(o, tx);
    SignedInputsSpend(o, tx.inputs, o.message(tx));
    OutputsInRange(o, tx);
    assert InputsVerdict(s, tx.inputs).None?;
    ConservesFromParts(o, s, tx);
  }

  // --- one block -----------------------------------------------------------

  lemma CrossSumHead(txs: seq<Transaction>)
    requires txs != []
    ensures CrossSum(BlockBundles(txs)) ==
            CrossSum(BlockBundles(txs[1..])) +
            if txs[0].shielded.Some? then -(txs[0].shielded.value.valueBalance as int) else 0
  {
    if txs[0].shielded.Some? {
      assert ([txs[0].shielded.value] + BlockBundles(txs[1..]))[1..] == BlockBundles(txs[1..]);
    } else {
      assert [] + BlockBundles(txs[1..]) == BlockBundles(txs[1..]);
    }
  }

  lemma {:induction false} TxsConserve(o: Crypto, s: Ledger, txs: seq<Transaction>)
    requires forall i :: 0 <= i < |txs| ==> TxConserves(o, s, txs[i])
    ensures Amounts(o, ConsumedByTxs(o, txs)) ==
            Amounts(o, TxOutputs(txs)) + Fees(txs) + CrossSum(BlockBundles(txs))
    ensures forall m :: m in ConsumedByTxs(o, txs) ==> m in s.membership
    ensures AmountsSmall(o, TxOutputs(txs))
  {
    if txs != [] {
      assert TxConserves(o, s, txs[0]);
      TxsConserve(o, s, txs[1..]);
      AmountsConcat(o, Consumes(o, txs[0].inputs), ConsumedByTxs(o, txs[1..]));
      AmountsConcat(o, txs[0].OutputRefs(), TxOutputs(txs[1..]));
      CrossSumHead(txs);
    }
  }

  function KeyImagesOf(o: Crypto, ms: seq<RingMember>): seq<Bytes32> {
    if ms == [] then [] else [o.keyImageOf(ms[0].key)] + KeyImagesOf(o, ms[1..])
  }

  lemma {:induction false} KeyImagesConcat(o: Crypto, xs: seq<RingMember>, ys: seq<RingMember>)
    ensures KeyImagesOf(o, xs + ys) == KeyImagesOf(o, xs) + KeyImagesOf(o, ys)
  {
    if xs == [] {
      assert xs + ys == ys;
    } else {
      assert (xs + ys)[1..] == xs[1..] + ys;
      KeyImagesConcat(o, xs[1..], ys);
    }
  }

  lemma {:induction false} ImagesAreOfRealMembers(o: Crypto, inputs: seq<Input>, images: seq<Bytes32>)
    requires AllSpendOne(o, inputs) && |images| == |inputs|
    requires forall i :: 0 <= i < |inputs| ==> images[i] == inputs[i].keyImage
    ensures images == KeyImagesOf(o, Consumes(o, inputs))
  {
    if inputs != [] {
      ImagesAreOfRealMembers(o, inputs[1..], images[1..]);
      assert Consumes(o, inputs)[1..] == Consumes(o, inputs[1..]);
      assert SpendsOne(o, inputs[0]);
    }
  }

  lemma {:induction false} BlockImagesAreReal(o: Crypto, s: Ledger, txs: seq<Transaction>)
    requires forall i :: 0 <= i < |txs| ==> TxConserves(o, s, txs[i])
    ensures BlockImages(txs) == KeyImagesOf(o, ConsumedByTxs(o, txs))
  {
    if txs != [] {
      assert TxConserves(o, s, txs[0]);
      BlockImagesAreReal(o, s, txs[1..]);
      ImagesAreOfRealMembers(o, txs[0].inputs, txs[0].KeyImages());
      KeyImagesConcat(o, Consumes(o, txs[0].inputs), ConsumedByTxs(o, txs[1..]));
    }
  }

  lemma {:induction false} ImageOfMember(o: Crypto, ms: seq<RingMember>, m: RingMember)
    requires m in ms
    ensures o.keyImageOf(m.key) in KeyImagesOf(o, ms)
  {
    if m != ms[0] {
      ImageOfMember(o, ms[1..], m);
    }
  }

  /** Different images come from different members. */
  lemma {:induction false} DistinctImagesDistinctMembers(o: Crypto, ms: seq<RingMember>)
    requires Distinct(KeyImagesOf(o, ms))
    ensures Distinct(ms)
  {
    if ms != [] {
      assert KeyImagesOf(o, ms)[1..] == KeyImagesOf(o, ms[1..]);
      DistinctImagesDistinctMembers(o, ms[1..]);
      if ms[0] in ms[1..] {
        ImageOfMember(o, ms[1..], ms[0]);
      }
    }
  }

  // --- sums over the output set --------------------------------------------

  lemma {:induction false} UnspentUnaffected(
    o: Crypto, outputs: seq<RingMember>, consumed: set<RingMember>, m: RingMember)
    requires m !in outputs
    ensures Unspent(o, outputs, consumed + {m}) == Unspent(o, outputs, consumed)
  {
    if outputs != [] {
      UnspentUnaffected(o, outputs[1..], consumed, m);
    }
  }

  lemma {:induction false} ConsumeOne(o: Crypto, outputs: seq<RingMember>, consumed: set<RingMember>, m: RingMember)
    requires m in outputs && m !in consumed && Distinct(outputs)
    ensures Unspent(o, outputs, consumed + {m}) + Amount(o, m) == Unspent(o, outputs, consumed)
  {
    if m == outputs[0] {
      UnspentUnaffected(o, outputs[1..], consumed, m);
    } else {
      ConsumeOne(o, outputs[1..], consumed, m);
    }
  }

  lemma {:induction false} ConsumeMany(
    o: Crypto, outputs: seq<RingMember>, consumed: set<RingMember>, ms: seq<RingMember>)
    requires Distinct(outputs) && Distinct(ms)
    requires forall m :: m in ms ==> m in outputs && m !in consumed
    ensures Unspent(o, outputs, consumed + SetOf(ms)) + Amounts(o, ms) == Unspent(o, outputs, consumed)
    decreases |ms|
  {
    if ms == [] {
      assert consumed + SetOf(ms) == consumed;
    } else {
      ConsumeOne(o, outputs, consumed, ms[0]);
      ConsumeMany(o, outputs, consumed + {ms[0]}, ms[1..]);
      assert ms == [ms[0]] + ms[1..];
      assert consumed + SetOf(ms) == consumed + {ms[0]} + SetOf(ms[1..]);
    }
  }

  lemma {:induction false} FreshAreUnspent(o: Crypto, news: seq<RingMember>, consumed: set<RingMember>)
    requires forall m :: m in news ==> m !in consumed
    ensures Unspent(o, news, consumed) == Amounts(o, news)
  {
    if news != [] {
      FreshAreUnspent(o, news[1..], consumed);
    }
  }

  lemma {:induction false} ProduceMany(
    o: Crypto, outputs: seq<RingMember>, consumed: set<RingMember>, news: seq<RingMember>)
    requires forall m :: m in news ==> m !in consumed
    ensures Unspent(o, outputs + news, consumed) == Unspent(o, outputs, consumed) + Amounts(o, news)
  {
    if outputs == [] {
      assert outputs + news == news;
      FreshAreUnspent(o, news, consumed);
    } else {
      assert (outputs + news)[1..] == outputs[1..] + news;
      ProduceMany(o, outputs[1..], consumed, news);
    }
  }

  lemma {:induction false} RingRewardSum(o: Crypto, outputs: seq<CoinbaseOutput>, refs: seq<RingMember>, acc: U64)
    requires Sound(o) && CommitmentsCanonical(o, outputs) && CheckedTotal(outputs, acc).Some?
    requires |refs| == |outputs| && forall i :: 0 <= i < |outputs| ==> refs[i] == outputs[i].Ref()
    ensures CheckedTotal(outputs, acc).value == acc + Amounts(o, refs)
    ensures AmountsSmall(o, refs)
    decreases |outputs|
  {
    if outputs != [] {
      RingRewardSum(o, outputs[1..], refs[1..], acc + outputs[0].amount);
      assert Amount(o, refs[0]) == outputs[0].amount;
      assert refs == [refs[0]] + refs[1..];
    }
  }

  // --- the invariant -------------------------------------------------------

  /** The membership index is the inverse of the output list. */
  ghost predicate IndexIsExact(outputs: seq<RingMember>, membership: map<RingMember, nat>) {
    && Distinct(outputs)
    && membership.Keys == SetOf(outputs)
    && forall i :: 0 <= i < |outputs| ==> membership[outputs[i]] == i
  }

  lemma {:induction false} IndexedExtends(
    outputs: seq<RingMember>, membership: map<RingMember, nat>, news: seq<RingMember>)
    requires IndexIsExact(outputs, membership)
    requires Distinct(news) && forall m :: m in news ==> m !in membership
    ensures IndexIsExact(outputs + news, Indexed(membership, |outputs|, news))
    decreases |news|
  {
    if news == [] {
      assert outputs + news == outputs;
    } else {
      var more := outputs + [news[0]];
      var index := membership[news[0] := |outputs|];
      assert forall m :: m in outputs ==> m in membership.Keys;
      DistinctConcat(outputs, [news[0]]);
      assert news == [news[0]] + news[1..];
      assert index.Keys == SetOf(more);
      IndexedExtends(more, index, news[1..]);
      assert more + news[1..] == outputs + news;
    }
  }

  predicate BlockSized(b: StoredBlock) {
    forall i :: 0 <= i < |b.txs| ==> |b.txs[i].inputs| <= MAX_LENGTH
  }

  /** Blocks as any node holds them: no transaction has more inputs than a list can have. */
  predicate InMemory(blocks: seq<StoredBlock>) {
    forall i :: 0 <= i < |blocks| ==> BlockSized(blocks[i])
  }

  ghost predicate ConsumedOnce(o: Crypto, s: Ledger, consumed: seq<RingMember>) {
    && Distinct(consumed)
    && forall m :: m in consumed ==> m in s.membership && o.keyImageOf(m.key) in s.spent
  }

  /**
   No output is consumed twice, and the ring total is the sum of the amounts of the
   outputs that were not consumed.
   */
  ghost predicate Conserved(o: Crypto, s: Ledger) {
    && IndexIsExact(s.outputs, s.membership)
    && (forall m :: m in s.membership ==> Amount(o, m) < TWO_64)
    && ConsumedOnce(o, s, Consumed(o, s.blocks))
    && s.shielded.totals.ring == Unspent(o, s.outputs, SetOf(Consumed(o, s.blocks)))
  }

  /** The block's own consumption: new members, none consumed before. */
  lemma BlockConsumesOnce(o: Crypto, s: Ledger, b: StoredBlock, consumed: seq<RingMember>)
    requires ConsumedOnce(o, s, consumed)
    requires forall i :: 0 <= i < |b.txs| ==> TxConserves(o, s, b.txs[i])
    requires Distinct(BlockImages(b.txs)) && forall image :: image in BlockImages(b.txs) ==> image !in s.spent
    ensures Distinct(ConsumedByTxs(o, b.txs))
    ensures forall m :: m in ConsumedByTxs(o, b.txs) ==>
              m in s.membership && m !in consumed && o.keyImageOf(m.key) in BlockImages(b.txs)
  {
    BlockImagesAreReal(o, s, b.txs);
    TxsConserve(o, s, b.txs);
    var news := ConsumedByTxs(o, b.txs);
    DistinctImagesDistinctMembers(o, news);
    forall m | m in news
      ensures m !in consumed && o.keyImageOf(m.key) in BlockImages(b.txs)
    {
      ImageOfMember(o, news, m);
    }
  }

  lemma CoinbasePays(o: Crypto, coinbase: Coinbase, allowed: U64, prevId: Bytes32)
    requires Sound(o) && CoinbaseValid(o, coinbase, allowed, prevId)
    ensures AmountsSmall(o, coinbase.OutputRefs())
    ensures Amounts(o, coinbase.OutputRefs()) == if coinbase.shielded.Some? then 0 else allowed
  {
    if coinbase.shielded.None? {
      RingRewardSum(o, coinbase.outputs, coinbase.OutputRefs(), 0);
    }
  }

  /** What the turnstile books for a block, in terms of what its coinbase pays. */
  lemma RewardBooks(o: Crypto, s: Ledger, b: StoredBlock, v: Verdict)
    requires Sound(o) && CoinbaseOk(o, s, b, v)
    requires v.pool.after.totals.ring == s.shielded.totals.ring - CrossSum(BlockBundles(b.txs)) +
                                         if b.block.coinbase.shielded.Some? then -(v.fees as int) else v.subsidy
    ensures AmountsSmall(o, b.block.coinbase.OutputRefs())
    ensures v.pool.after.totals.ring == s.shielded.totals.ring - CrossSum(BlockBundles(b.txs)) - Fees(b.txs) +
                                        Amounts(o, b.block.coinbase.OutputRefs())
  {
    CoinbasePays(o, b.block.coinbase, v.subsidy + v.fees, b.block.header.prevId);
  }

  /** Outputs gained minus outputs consumed is exactly what the turnstile books. */
  lemma RingBooksBalance(o: Crypto, s: Ledger, b: StoredBlock, consumed: set<RingMember>, gone: seq<RingMember>)
    requires forall i :: 0 <= i < |b.txs| ==> TxConserves(o, s, b.txs[i])
    requires gone == ConsumedByTxs(o, b.txs) && Distinct(s.outputs) && Distinct(gone)
    requires forall m :: m in gone ==> m in s.outputs && m !in consumed
    requires forall m :: m in BlockOutputs(b.block, b.txs) ==> m !in s.outputs
    requires forall m :: m in consumed ==> m in s.outputs
    ensures Unspent(o, s.outputs + BlockOutputs(b.block, b.txs), consumed + SetOf(gone)) ==
            Unspent(o, s.outputs, consumed) - CrossSum(BlockBundles(b.txs)) - Fees(b.txs) +
            Amounts(o, b.block.coinbase.OutputRefs())
    ensures AmountsSmall(o, TxOutputs(b.txs))
  {
    var news := BlockOutputs(b.block, b.txs);
    TxsConserve(o, s, b.txs);
    AmountsConcat(o, b.block.coinbase.OutputRefs(), TxOutputs(b.txs));
    ConsumeMany(o, s.outputs, consumed, gone);
    ProduceMany(o, s.outputs, consumed + SetOf(gone), news);
  }

  lemma TxsConserveAll(o: Crypto, s: Ledger, b: StoredBlock)
    requires Sound(o) && BlockSized(b) && TxsOk(o, s, b)
    requires forall m :: m in s.membership ==> Amount(o, m) < TWO_64
    ensures forall i :: 0 <= i < |b.txs| ==> TxConserves(o, s, b.txs[i])
  {
    forall i | 0 <= i < |b.txs|
      ensures TxConserves(o, s, b.txs[i])
    {
      AcceptedTxConserves(o, s, b.txs[i]);
    }
  }

  lemma FreshOutputsExtendIndex(o: Crypto, s: Ledger, b: StoredBlock)
    requires TxsOk(o, s, b) && IndexIsExact(s.outputs, s.membership)
    ensures var news := BlockOutputs(b.block, b.txs);
            (forall m :: m in news ==> m !in s.outputs) &&
            IndexIsExact(s.outputs + news, Indexed(s.membership, |s.outputs|, news))
  {
    var news := BlockOutputs(b.block, b.txs);
    MeetsIff(news, s.membership.Keys);
    IndexedExtends(s.outputs, s.membership, news);
    assert forall m :: m in s.outputs ==> m in s.membership.Keys;
  }

  lemma AmountsStaySmall(
    o: Crypto, outputs: seq<RingMember>, membership: map<RingMember, nat>, news: seq<RingMember>,
    index: map<RingMember, nat>)
    requires IndexIsExact(outputs, membership) && IndexIsExact(outputs + news, index)
    requires AmountsSmall(o, news) && forall m :: m in membership ==> Amount(o, m) < TWO_64
    ensures forall m :: m in index ==> Amount(o, m) < TWO_64
  {
    forall m | m in index
      ensures Amount(o, m) < TWO_64
    {
      assert m in SetOf(outputs + news);
      if m in outputs {
        assert m in membership.Keys;
      }
    }
  }

  lemma ConsumedGrows(o: Crypto, blocks: seq<StoredBlock>, b: StoredBlock)
    ensures Consumed(o, blocks + [b]) == Consumed(o, blocks) + ConsumedByTxs(o, b.txs)
  {
    assert (blocks + [b])[..|blocks|] == blocks;
  }

  /** What the ring total must be once the block is in. */
  lemma {:induction false} RingTotalExtends(o: Crypto, s: Ledger, b: StoredBlock, ring: int)
    requires Conserved(o, s)
    requires forall i :: 0 <= i < |b.txs| ==> TxConserves(o, s, b.txs[i])
    requires ring == s.shielded.totals.ring - CrossSum(BlockBundles(b.txs)) - Fees(b.txs) +
                     Amounts(o, b.block.coinbase.OutputRefs())
    requires forall m :: m in BlockOutputs(b.block, b.txs) ==> m !in s.outputs
    requires Distinct(ConsumedByTxs(o, b.txs))
    requires forall m :: m in ConsumedByTxs(o, b.txs) ==> m in s.membership && m !in Consumed(o, s.blocks)
    ensures ring == Unspent(o, s.outputs + BlockOutputs(b.block, b.txs), SetOf(Consumed(o, s.blocks + [b])))
    ensures AmountsSmall(o, TxOutputs(b.txs))
  {
    var before, gone := Consumed(o, s.blocks), ConsumedByTxs(o, b.txs);
    assert forall m :: m in s.membership.Keys ==> m in s.outputs;
    RingBooksBalance(o, s, b, SetOf(before), gone);
    ConsumedGrows(o, s.blocks, b);
    assert SetOf(before + gone) == SetOf(before) + SetOf(gone);
  }

  lemma ConsumedOnceExtends(
    o: Crypto, s: Ledger, s': Ledger, before: seq<RingMember>, gone: seq<RingMember>, news: seq<RingMember>)
    requires ConsumedOnce(o, s, before) && Distinct(gone)
    requires s.spent <= s'.spent && s'.membership == Indexed(s.membership, |s.outputs|, news)
    requires forall m :: m in gone ==> m in s.membership && m !in before && o.keyImageOf(m.key) in s'.spent
    ensures ConsumedOnce(o, s', before + gone)
  {
    DistinctConcat(before, gone);
    IndexedDomain(s.membership, |s.outputs|, news);
  }

  /** What the block adds to the columns that conservation is about. */
  lemma {:induction false} ExtendedColumns(o: Crypto, s: Ledger, b: StoredBlock, v: Verdict)
    requires s.Shaped() && !s.prune
    ensures var s', news := Extended(o, s, b.block, b.txs, v), BlockOutputs(b.block, b.txs);
            && s'.blocks == s.blocks + [b] && s'.outputs == s.outputs + news
            && s'.membership == Indexed(s.membership, |s.outputs|, news)
            && s'.spent == s.spent + SetOf(BlockImages(b.txs)) && s'.shielded == v.pool.after
  {
  }

  lemma {:induction false} ConservedExtends(o: Crypto, s: Ledger, b: StoredBlock, v: Verdict)
    requires s.Shaped() && !s.prune && Conserved(o, s)
    requires forall i :: 0 <= i < |b.txs| ==> TxConserves(o, s, b.txs[i])
    requires AmountsSmall(o, b.block.coinbase.OutputRefs())
    requires v.pool.after.totals.ring == s.shielded.totals.ring - CrossSum(BlockBundles(b.txs)) - Fees(b.txs) +
                                         Amounts(o, b.block.coinbase.OutputRefs())
    requires var news := BlockOutputs(b.block, b.txs);
             (forall m :: m in news ==> m !in s.outputs) &&
             IndexIsExact(s.outputs + news, Indexed(s.membership, |s.outputs|, news))
    requires Distinct(ConsumedByTxs(o, b.txs))
    requires forall m :: m in ConsumedByTxs(o, b.txs) ==>
               m in s.membership && m !in Consumed(o, s.blocks) && o.keyImageOf(m.key) in BlockImages(b.txs)
    ensures Conserved(o, Extended(o, s, b.block, b.txs, v))
  {
    var s' := Extended(o, s, b.block, b.txs, v);
    var before, gone := Consumed(o, s.blocks), ConsumedByTxs(o, b.txs);
    var news := BlockOutputs(b.block, b.txs);
    ExtendedColumns(o, s, b, v);
    RingTotalExtends(o, s, b, v.pool.after.totals.ring);
    ConsumedGrows(o, s.blocks, b);
    AmountsStaySmall(o, s.outputs, s.membership, news, s'.membership);
    ConsumedOnceExtends(o, s, s', before, gone, news);
  }

  lemma ConservedStep(o: Crypto, s: Ledger, b: StoredBlock, v: Verdict)
    requires Sound(o) && s.Shaped() && !s.prune && Conserved(o, s) && BlockSized(b)
    requires RewardOk(o, s, b, v) && TxsOk(o, s, b)
    ensures Conserved(o, Extended(o, s, b.block, b.txs, v))
  {
    RewardMovesTotals(o, s, b, v);
    RewardBooks(o, s, b, v);
    TxsConserveAll(o, s, b);
    FreshOutputsExtendIndex(o, s, b);
    BlockConsumesOnce(o, s, b, Consumed(o, s.blocks));
    ConservedExtends(o, s, b, v);
  }

  lemma GenesisConserved(o: Crypto, g: Block, maturity: U64)
    requires Sound(o) && IsGenesis(o, g)
    ensures Conserved(o, GenesisLedger(o, g, maturity))
  {
    GenesisSupply(o, g, maturity);
    var s := GenesisLedger(o, g, maturity);
    assert Consumed(o, s.blocks[..0]) == [];
    assert Consumed(o, s.blocks) == [];
    var m := g.coinbase.outputs[0].Ref();
    assert Amount(o, m) == Premine(g);
    assert Unspent(o, s.outputs, {}) == Amount(o, m) + Unspent(o, [], {});
  }

  lemma {:induction false} ConservedByAdd(o: Crypto, t: Ledger, b: StoredBlock)
    requires Sound(o) && t.Shaped() && !t.prune && Conserved(o, t) && BlockSized(b)
    requires Added(o, t, true, b.block, b.txs).Ok?
    ensures Conserved(o, Added(o, t, true, b.block, b.txs).value)
  {
    var v := AddedReward(o, t, b);
    AddedTxs(o, t, b);
    ConservedStep(o, t, b, v);
  }

  /** One more block: the shorter chain was in memory too. */
  lemma {:induction false} ConservedInductionStep(o: Crypto, t: Ledger, b: StoredBlock)
    requires Sound(o) && Lawful(ConsensusRules(o)) && ConsensusRules(o).valid(t)
    requires ConsensusRules(o).add(t, true, b).Ok?
    requires InMemory(t.blocks) ==> Conserved(o, t)
    ensures var t' := ConsensusRules(o).add(t, true, b).value;
            InMemory(t'.blocks) ==> Conserved(o, t')
  {
    var rules := ConsensusRules(o);
    var t' := rules.add(t, true, b).value;
    assert AcceptLaw(rules, t, b, t');
    if InMemory(t'.blocks) {
      assert forall i :: 0 <= i < |t.blocks| ==> t.blocks[i] == t'.blocks[i];
      assert t'.blocks[|t.blocks|] == b;
      ConservedByAdd(o, t, b);
    }
  }

  /** Conservation on every chain reachable from genesis. */
  lemma {:induction false} ValueIsConserved(o: Crypto, g: Block, maturity: U64, s: Ledger)
    requires Sound(o) && IsGenesis(o, g)
    requires Genuine(ConsensusRules(o), GenesisLedger(o, g, maturity), s)
    requires InMemory(s.blocks)
    ensures Conserved(o, s)
  {
    var rules, start := ConsensusRules(o), GenesisLedger(o, g, maturity);
    ConsensusIsLawful(o);
    GenesisConserved(o, g, maturity);
    var inv := (t: Ledger) => InMemory(t.blocks) ==> Conserved(o, t);
    forall t, b | rules.valid(t) && inv(t) && rules.add(t, true, b).Ok?
      ensures inv(rules.add(t, true, b).value)
    {
      ConservedInductionStep(o, t, b);
    }
    ReplayInduction(rules, start, s.blocks[1..], s, inv);
  }
}
