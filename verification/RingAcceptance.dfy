/**
 Rings against the validator: on every chain reachable from genesis the output columns
 are what ring selection expects, and a ring it assembles is accepted exactly when the
 output really spent may be spent (noct/core/src/chain.rs).
 */
module RingAcceptance {
  import opened Types
  import opened Data
  import opened Oracles
  import opened Ledgers
  import opened Replay
  import opened Consensus
  import opened Conservation
  import opened RingSelection

  /** The chain as ring selection sees it. */
  function OutputsOf(s: Ledger): OutputSet {
    OutputSet(s.outputs, s.meta, if s.Height() < TWO_64 then s.Height() else 0, s.maturity)
  }

  ghost predicate Columns(s: Ledger) {
    && |s.outputs| == |s.meta| && |s.ids| >= 1
    && IndexIsExact(s.outputs, s.membership)
    && HeightsRise(s.meta)
    && forall i :: 0 <= i < |s.meta| ==> s.meta[i].height < |s.ids|
  }

  lemma ColumnsExtend(o: Crypto, s: Ledger, b: StoredBlock, v: Verdict)
    requires s.Shaped() && Columns(s) && b.block.coinbase.height == s.Height()
    requires var news := BlockOutputs(b.block, b.txs);
             IndexIsExact(s.outputs + news, Indexed(s.membership, |s.outputs|, news))
    ensures Columns(Extended(o, s, b.block, b.txs, v))
  {
    var news := BlockMeta(b.block, b.txs);
    forall i, j | 0 <= i < j < |s.meta + news|
      ensures (s.meta + news)[i].height <= (s.meta + news)[j].height
    {
    }
  }

  lemma GenesisColumns(o: Crypto, g: Block, maturity: U64)
    requires IsGenesis(o, g)
    ensures Columns(GenesisLedger(o, g, maturity))
  {
    var s := GenesisLedger(o, g, maturity);
    var m := g.coinbase.outputs[0].Ref();
    assert s.outputs == [m] && Distinct([m][1..]);
    assert s.membership.Keys == SetOf([m]);
  }

  /** Output heights never fall and the membership index inverts the output list, on every reachable chain. */
  lemma ColumnsHold(o: Crypto, g: Block, maturity: U64, s: Ledger)
    requires IsGenesis(o, g)
    requires Genuine(ConsensusRules(o), GenesisLedger(o, g, maturity), s)
    ensures Columns(s)
  {
    var rules, start := ConsensusRules(o), GenesisLedger(o, g, maturity);
    ConsensusIsLawful(o);
    GenesisColumns(o, g, maturity);
    var inv := (t: Ledger) => Columns(t);
    forall t, b | rules.valid(t) && inv(t) && rules.add(t, true, b).Ok?
      ensures inv(rules.add(t, true, b).value)
    {
      var v := AddedReward(o, t, b);
      AddedTxs(o, t, b);
      FreshOutputsExtendIndex(o, t, b);
      ColumnsExtend(o, t, b, v);
    }
    ReplayInduction(rules, start, s.blocks[1..], s, inv);
  }

  /** The validator's scan of a ring, member by member. */
  lemma {:induction false} RingPasses(s: Ledger, ring: seq<RingMember>, indices: seq<nat>)
    requires Columns(s) && |ring| == |indices|
    requires forall i :: 0 <= i < |ring| ==> indices[i] < |s.outputs| && ring[i] == s.outputs[indices[i]]
    ensures RingVerdict(s, ring).None? <==>
              forall i :: 0 <= i < |ring| ==> s.SpendableAt(indices[i], s.Height())
    ensures RingVerdict(s, ring).None? || RingVerdict(s, ring) == Some(ImmatureCoinbase)
  {
    if ring != [] {
      assert ring[0] in s.outputs;
      assert ring[0] in s.membership.Keys && s.membership[ring[0]] == indices[0];
      RingPasses(s, ring[1..], indices[1..]);
    }
  }

  /** Two positions of a ring never hold the same member. */
  lemma MembersDiffer(s: Ledger, size: nat, own: nat, ring: seq<RingMember>, signer: nat, indices: seq<nat>)
    requires Columns(s) && RingOf(OutputsOf(s), size, own, ring, signer, indices)
    ensures forall i, j :: 0 <= i < j < size ==> ring[i] != ring[j]
  {
    forall i, j | 0 <= i < j < size
      ensures ring[i] != ring[j]
    {
      assert s.membership[s.outputs[indices[i]]] == indices[i];
      assert s.membership[s.outputs[indices[j]]] == indices[j];
    }
  }

  /**
   A ring of the required size, as `AssembleRing` makes them on a chain that has reached
   its maturity, passes the size, membership and maturity checks exactly when the real
   output is spendable; the signer's member is the real output and no member repeats.
   */
  lemma AssembledRingsAreAccepted(
    o: Crypto, g: Block, maturity: U64, s: Ledger, own: nat, ring: seq<RingMember>, signer: nat, indices: seq<nat>,
    input: Input)
    requires IsGenesis(o, g)
    requires Genuine(ConsensusRules(o), GenesisLedger(o, g, maturity), s)
    requires s.Height() < U64_MAX && Grown(OutputsOf(s))
    requires RingOf(OutputsOf(s), RING_SIZE, own, ring, signer, indices)
    requires forall i :: 0 <= i < RING_SIZE && i != signer ==> OutputsOf(s).Spendable(indices[i])
    requires input.ring == ring
    ensures InputsVerdict(s, [input]).None? <==> s.SpendableAt(own, s.Height())
    ensures ring[signer] == s.outputs[own]
    ensures forall i, j :: 0 <= i < j < RING_SIZE ==> ring[i] != ring[j]
  {
    ColumnsHold(o, g, maturity, s);
    MembersDiffer(s, RING_SIZE, own, ring, signer, indices);
    RingPasses(s, ring, indices);
    assert InputsVerdict(s, [input]) == if RingVerdict(s, ring).Some? then RingVerdict(s, ring)
        else InputsVerdict(s, [input][1..]);
    assert forall i: nat :: OutputsOf(s).Spendable(i) <==> s.SpendableAt(i, s.Height());
  }

  /**
   On any chain, young or grown: a ring `AssembleRing` gives out for a real output is
   refused, as immature, exactly when that output may not be spent yet or one of the
   decoys may not.
   */
  lemma {:induction false} AssembledRingPassesIff(s: Ledger, own: nat, tape: Tape, input: Input)
    requires Columns(s) && s.Height() < TWO_64
    requires var r := Assemble(OutputsOf(s), RING_SIZE, own, tape); r.Ring? && input.ring == r.members
    ensures InputsVerdict(s, [input]) ==
            if s.SpendableAt(own, s.Height()) && !HoldsUnspendable(OutputsOf(s), RING_SIZE, own, tape) then None
            else Some(ImmatureCoinbase)
  {
    var outs := OutputsOf(s);
    var indices := Indices(outs, RING_SIZE, own, tape);
    IndicesDiffer(outs, RING_SIZE, own, tape);
    RingPasses(s, input.ring, indices);
    assert forall i: nat :: outs.Spendable(i) <==> s.SpendableAt(i, s.Height());
    assert [input][1..] == [] && InputsVerdict(s, []) == None;
  }

  // --- what a young chain holds --------------------------------------------

  /** Every transaction of the chain has a ring input. */
  predicate AllSpendRings(blocks: seq<StoredBlock>) {
    forall i :: 0 <= i < |blocks| ==> forall j :: 0 <= j < |blocks[i].txs| ==> blocks[i].txs[j].inputs != []
  }

  predicate OnlyCoinbases(meta: seq<OutputMeta>, blocks: seq<StoredBlock>) {
    && (forall i :: 0 <= i < |meta| ==> meta[i].coinbase)
    && (forall i :: 0 <= i < |blocks| ==> blocks[i].txs == [])
  }

  /** Where all outputs are coinbases, no ring member may be named below the maturity. */
  lemma {:induction false} NoRingPassesEarly(o: Crypto, s: Ledger, tx: Transaction)
    requires OnlyCoinbases(s.meta, s.blocks) && s.Height() < s.maturity && tx.inputs != []
    ensures !TxAccepted(o, s, tx)
  {
    var ring := tx.inputs[0].ring;
    if |ring| == RING_SIZE {
      assert RingVerdict(s, ring).Some?;
    }
  }

  lemma {:induction false} EarlyBlockIsEmpty(o: Crypto, s: Ledger, b: StoredBlock)
    requires OnlyCoinbases(s.meta, s.blocks) && s.Height() < s.maturity && TxsOk(o, s, b)
    requires forall j :: 0 <= j < |b.txs| ==> b.txs[j].inputs != []
    ensures OnlyCoinbases(s.meta + BlockMeta(b.block, b.txs), s.blocks + [b])
  {
    if b.txs != [] {
      NoRingPassesEarly(o, s, b.txs[0]);
    }
  }

  lemma {:induction false} FewerSpendRings(blocks: seq<StoredBlock>, b: StoredBlock)
    requires AllSpendRings(blocks + [b])
    ensures AllSpendRings(blocks)
    ensures forall j :: 0 <= j < |b.txs| ==> b.txs[j].inputs != []
  {
    forall i | 0 <= i < |blocks|
      ensures forall j :: 0 <= j < |blocks[i].txs| ==> blocks[i].txs[j].inputs != []
    {
      assert (blocks + [b])[i] == blocks[i];
    }
    assert (blocks + [b])[|blocks|] == b;
  }

  /** While a chain is young and spends only rings, it has no transactions. */
  predicate EmptyWhileYoung(t: Ledger, maturity: U64) {
    |t.blocks| <= maturity && AllSpendRings(t.blocks) ==> OnlyCoinbases(t.meta, t.blocks)
  }

  lemma {:induction false} StaysEmpty(o: Crypto, t: Ledger, b: StoredBlock, v: Verdict)
    requires t.Shaped() && !t.prune && |t.blocks| == |t.ids| && TxsOk(o, t, b) && EmptyWhileYoung(t, t.maturity)
    ensures EmptyWhileYoung(Extended(o, t, b.block, b.txs, v), t.maturity)
  {
    var t' := Extended(o, t, b.block, b.txs, v);
    assert t'.blocks == t.blocks + [b] && t'.meta == t.meta + BlockMeta(b.block, b.txs);
    if |t'.blocks| <= t.maturity && AllSpendRings(t'.blocks) {
      FewerSpendRings(t.blocks, b);
      EarlyBlockIsEmpty(o, t, b);
    }
  }

  lemma {:induction false} AddedStaysEmpty(o: Crypto, t: Ledger, b: StoredBlock)
    requires t.Shaped() && Parallel(t) && !t.prune && EmptyWhileYoung(t, t.maturity)
    requires Added(o, t, true, b.block, b.txs).Ok?
    ensures var t' := Added(o, t, true, b.block, b.txs).value;
            t'.maturity == t.maturity && EmptyWhileYoung(t', t.maturity)
  {
    var v := AddedReward(o, t, b);
    AddedTxs(o, t, b);
    StaysEmpty(o, t, b, v);
  }

  /**
   Up to the maturity, a chain whose transactions all have ring inputs has no transaction
   at all: the first output that is not a coinbase comes from one without.
   */
  lemma {:induction false} YoungChainsNeedRinglessTxs(o: Crypto, g: Block, maturity: U64, s: Ledger)
    requires IsGenesis(o, g)
    requires Genuine(ConsensusRules(o), GenesisLedger(o, g, maturity), s)
    requires |s.blocks| <= maturity && AllSpendRings(s.blocks)
    ensures OnlyCoinbases(s.meta, s.blocks)
  {
    var rules, start := ConsensusRules(o), GenesisLedger(o, g, maturity);
    ConsensusIsLawful(o);
    var inv := (t: Ledger) => t.maturity == maturity && EmptyWhileYoung(t, maturity);
    forall t, b | rules.valid(t) && inv(t) && rules.add(t, true, b).Ok?
      ensures inv(rules.add(t, true, b).value)
    {
      AddedStaysEmpty(o, t, b);
    }
    ReplayInduction(rules, start, s.blocks[1..], s, inv);
  }
}
