/**
 What validation reads of a chain: everything but the stored blocks and undo records.
 Two chains that agree on the rest give the same verdict on every block, for ever.
 */
module Restart {
  import opened Types
  import opened Data
  import opened Oracles
  import opened Ledgers

  /** Equal in every field that validating the next block looks at. */
  predicate SameForward(s: Ledger, t: Ledger) {
    && s.ids == t.ids && s.timestamps == t.timestamps && s.work == t.work
    && s.outputs == t.outputs && s.membership == t.membership && s.meta == t.meta
    && s.spent == t.spent && s.emitted == t.emitted && s.shielded == t.shielded && s.maturity == t.maturity
  }

  lemma {:induction false} RingVerdictSame(s: Ledger, t: Ledger, ring: seq<RingMember>)
    requires SameForward(s, t)
    ensures RingVerdict(s, ring) == RingVerdict(t, ring)
  {
    if ring != [] {
      RingVerdictSame(s, t, ring[1..]);
    }
  }

  lemma {:induction false} InputsVerdictSame(s: Ledger, t: Ledger, inputs: seq<Input>)
    requires SameForward(s, t)
    ensures InputsVerdict(s, inputs) == InputsVerdict(t, inputs)
  {
    if inputs != [] {
      RingVerdictSame(s, t, inputs[0].ring);
      InputsVerdictSame(s, t, inputs[1..]);
    }
  }

  lemma {:induction false} NullifiersVerdictSame(s: Ledger, t: Ledger, ns: seq<Bytes32>)
    requires SameForward(s, t)
    ensures NullifiersVerdict(s, ns) == NullifiersVerdict(t, ns)
  {
    if ns != [] {
      NullifiersVerdictSame(s, t, ns[1..]);
    }
  }

  lemma ChainVerdictSame(s: Ledger, t: Ledger, tx: Transaction)
    requires SameForward(s, t)
    ensures ChainVerdict(s, tx) == ChainVerdict(t, tx)
  {
    InputsVerdictSame(s, t, tx.inputs);
    if tx.shielded.Some? {
      NullifiersVerdictSame(s, t, tx.shielded.value.Nullifiers());
    }
  }

  lemma {:induction false} GatherSame(o: Crypto, s: Ledger, t: Ledger, txs: seq<Transaction>, acc: Gathered)
    requires SameForward(s, t)
    ensures Gather(o, s, txs, acc) == Gather(o, t, txs, acc)
    decreases |txs|
  {
    if txs != [] {
      ChainVerdictSame(s, t, txs[0]);
      var step := GatherTx(o, s, txs[0], acc);
      if step.Ok? {
        GatherSame(o, s, t, txs[1..], step.value);
      }
    }
  }

  lemma HeaderVerdictSame(o: Crypto, s: Ledger, t: Ledger, inTime: bool, block: Block)
    requires s.Shaped() && t.Shaped() && SameForward(s, t)
    ensures HeaderVerdict(o, s, inTime, block) == HeaderVerdict(o, t, inTime, block)
    ensures s.Required() == t.Required()
  {
  }

  lemma PoolSame(o: Crypto, s: Ledger, t: Ledger, block: Block, txs: seq<Transaction>, subsidy: U64, fees: U64)
    requires s.Shaped() && t.Shaped() && SameForward(s, t)
    ensures JudgePool(o, s, block, txs, subsidy, fees) == JudgePool(o, t, block, txs, subsidy, fees)
  {
  }

  lemma RewardSame(o: Crypto, s: Ledger, t: Ledger, block: Block, txs: seq<Transaction>, fees: U64)
    requires s.Shaped() && t.Shaped() && SameForward(s, t)
    ensures JudgeReward(o, s, block, txs, fees) == JudgeReward(o, t, block, txs, fees)
  {
    assert JudgeCoinbase(o, s, block, fees) == JudgeCoinbase(o, t, block, fees);
    if JudgeCoinbase(o, s, block, fees).Ok? {
      PoolSame(o, s, t, block, txs, JudgeCoinbase(o, s, block, fees).value, fees);
    }
  }

  lemma JudgeSame(o: Crypto, s: Ledger, t: Ledger, inTime: bool, block: Block, txs: seq<Transaction>)
    requires s.Shaped() && t.Shaped() && SameForward(s, t)
    ensures Judge(o, s, inTime, block, txs) == Judge(o, t, inTime, block, txs)
  {
    HeaderVerdictSame(o, s, t, inTime, block);
    GatherSame(o, s, t, txs, NOTHING_GATHERED);
    var gathered := Gather(o, s, txs, NOTHING_GATHERED);
    if gathered.Ok? {
      RewardSame(o, s, t, block, txs, gathered.value.fees);
    }
  }

  lemma ExtendedSame(o: Crypto, s: Ledger, t: Ledger, b: StoredBlock, v: Verdict)
    requires s.Shaped() && t.Shaped() && SameForward(s, t)
    ensures SameForward(Extended(o, s, b.block, b.txs, v), Extended(o, t, b.block, b.txs, v))
  {
  }

  /** The same block gets the same answer, and leaves the chains as alike as before. */
  lemma AddedSame(o: Crypto, s: Ledger, t: Ledger, inTime: bool, b: StoredBlock)
    requires s.Shaped() && t.Shaped() && SameForward(s, t)
    ensures var left, right := Added(o, s, inTime, b.block, b.txs), Added(o, t, inTime, b.block, b.txs);
            left.Ok? == right.Ok?
            && if left.Ok? then SameForward(left.value, right.value) else left.error == right.error
  {
    JudgeSame(o, s, t, inTime, b.block, b.txs);
    var judged := Judge(o, s, inTime, b.block, b.txs);
    if judged.Ok? {
      ExtendedSame(o, s, t, b, judged.value);
    }
  }

  // --- sequences of blocks -------------------------------------------------

  /** One call of `add_block`: a block, and whether the clock lets it in. */
  datatype Call = Call(inTime: bool, b: StoredBlock)

  /** The chain after a sequence of calls; refused blocks leave it as it was. */
  function After(o: Crypto, s: Ledger, calls: seq<Call>): (s': Ledger)
    requires s.Shaped()
    ensures s'.Shaped()
    decreases |calls|
  {
    if calls == [] then s
    else
      var added := Added(o, s, calls[0].inTime, calls[0].b.block, calls[0].b.txs);
      After(o, if added.Ok? then added.value else s, calls[1..])
  }

  /** What each call answers: nothing wrong, or the error. */
  function Answers(o: Crypto, s: Ledger, calls: seq<Call>): seq<Option<ChainError>>
    requires s.Shaped()
    decreases |calls|
  {
    if calls == [] then []
    else
      var added := Added(o, s, calls[0].inTime, calls[0].b.block, calls[0].b.txs);
      [if added.Ok? then None else Some(added.error)]
      + Answers(o, if added.Ok? then added.value else s, calls[1..])
  }

  /** Chains alike in what validation reads cannot be told apart by adding blocks. */
  lemma {:induction false} ForwardIndistinguishable(o: Crypto, s: Ledger, t: Ledger, calls: seq<Call>)
    requires s.Shaped() && t.Shaped() && SameForward(s, t)
    ensures Answers(o, s, calls) == Answers(o, t, calls)
    ensures SameForward(After(o, s, calls), After(o, t, calls))
    decreases |calls|
  {
    if calls != [] {
      AddedSame(o, s, t, calls[0].inTime, calls[0].b);
      var left := Added(o, s, calls[0].inTime, calls[0].b.block, calls[0].b.txs);
      var right := Added(o, t, calls[0].inTime, calls[0].b.block, calls[0].b.txs);
      ForwardIndistinguishable(o, if left.Ok? then left.value else s, if right.Ok? then right.value else t, calls[1..]);
    }
  }
}
