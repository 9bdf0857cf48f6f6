/**
 What follows from `add_block` and `pop_block` alone, whatever the rules behind them
 are: replay from genesis, roll back, switch branches. The rules come in as a record
 of functions with four laws; `Consensus` shows that this chain's rules obey them.
 */
module Replay {
  import opened Types
  import opened Data
  import opened Ledgers

  datatype Rules = Rules(
    /** States the laws speak about. */
    valid: Ledger -> bool,
    /** `add_block`; the flag says whether the node's clock lets the block in. */
    add: (Ledger, bool, StoredBlock) -> Result<Ledger, ChainError>,
    pop: Ledger -> Ledger,
    blockId: Block -> Bytes32,
    /** The transactions supplied with a block are the ones its hash list names. */
    bodyFits: StoredBlock -> bool)

  predicate Parallel(s: Ledger) {
    |s.blocks| == |s.ids| == |s.timestamps| == |s.work| >= 1
  }

  function Work(s: Ledger): nat
    requires Parallel(s)
  {
    s.work[|s.work| - 1]
  }

  /** One accepted block: it is appended, carries work, belongs at this height, and can be popped. */
  ghost predicate AcceptLaw(rules: Rules, s: Ledger, b: StoredBlock, s': Ledger)
    requires Parallel(s)
  {
    && rules.valid(s')
    && Parallel(s')
    && s'.blocks == s.blocks + [b]
    && s'.ids == s.ids + [rules.blockId(b.block)]
    && s'.timestamps == s.timestamps + [b.block.header.timestamp]
    && s'.work[..|s.work|] == s.work
    && Work(s) < Work(s')
    && b.block.coinbase.height == |s.ids|
    && rules.bodyFits(b)
    && rules.pop(s') == s
  }

  ghost predicate Lawful(rules: Rules) {
    && (forall s :: rules.valid(s) ==> Parallel(s))
    && (forall s, b :: rules.valid(s) ==> rules.add(s, false, b).Err?)
    && (forall s, b :: rules.valid(s) && rules.add(s, true, b).Ok? ==>
          AcceptLaw(rules, s, b, rules.add(s, true, b).value))
  }

  // --- replay --------------------------------------------------------------

  /** `history` applied in order to `start`, no clock involved. */
  function Replayed(rules: Rules, start: Ledger, history: seq<StoredBlock>): Result<Ledger, ChainError> {
    if history == [] then Ok(start)
    else
      var last := |history| - 1;
      var before := Replayed(rules, start, history[..last]);
      if before.Err? then before else rules.add(before.value, true, history[last])
  }

  /** The chain that `start` is: genesis alone. */
  predicate IsStart(rules: Rules, start: Ledger) {
    && rules.valid(start) && Parallel(start) && |start.blocks| == 1
    && start.ids[0] == rules.blockId(start.blocks[0].block)
    && rules.bodyFits(start.blocks[0])
  }

  /** The whole state is what replaying its own surviving blocks gives. */
  predicate Genuine(rules: Rules, start: Ledger, s: Ledger) {
    && IsStart(rules, start)
    && |s.blocks| >= 1
    && Replayed(rules, start, s.blocks[1..]) == Ok(s)
  }

  lemma {:induction false} ReplayFacts(rules: Rules, start: Ledger, history: seq<StoredBlock>, s: Ledger)
    requires Lawful(rules) && IsStart(rules, start)
    requires Replayed(rules, start, history) == Ok(s)
    ensures rules.valid(s) && Parallel(s)
    ensures s.blocks == start.blocks + history
  {
    if history != [] {
      var last := |history| - 1;
      var before := Replayed(rules, start, history[..last]).value;
      ReplayFacts(rules, start, history[..last], before);
      assert history == history[..last] + [history[last]];
      assert AcceptLaw(rules, before, history[last], s);
    }
  }

  /** Ids are the ids of the stored blocks, whose bodies are the ones their hash lists name. */
  predicate Identified(rules: Rules, s: Ledger) {
    |s.ids| == |s.blocks| &&
    forall i :: 0 <= i < |s.ids| ==> s.ids[i] == rules.blockId(s.blocks[i].block) && rules.bodyFits(s.blocks[i])
  }

  /** Induction over replay: what genesis has and every accepted block keeps, every genuine chain has. */
  lemma {:induction false} ReplayInduction(
    rules: Rules, start: Ledger, history: seq<StoredBlock>, s: Ledger, inv: Ledger -> bool)
    requires Lawful(rules) && IsStart(rules, start)
    requires Replayed(rules, start, history) == Ok(s)
    requires inv(start)
    requires forall t, b :: rules.valid(t) && inv(t) && rules.add(t, true, b).Ok? ==> inv(rules.add(t, true, b).value)
    ensures inv(s)
  {
    if history != [] {
      var last := |history| - 1;
      var before := Replayed(rules, start, history[..last]).value;
      ReplayInduction(rules, start, history[..last], before, inv);
      ReplayFacts(rules, start, history[..last], before);
    }
  }

  lemma GenuineFacts(rules: Rules, start: Ledger, s: Ledger)
    requires Lawful(rules) && Genuine(rules, start, s)
    ensures rules.valid(s) && Parallel(s)
    ensures s.blocks[0] == start.blocks[0]
  {
    ReplayFacts(rules, start, s.blocks[1..], s);
  }

  lemma GenuineIsIdentified(rules: Rules, start: Ledger, s: Ledger)
    requires Lawful(rules) && Genuine(rules, start, s)
    ensures Identified(rules, s)
  {
    var inv := (t: Ledger) => Identified(rules, t);
    forall t, b | rules.valid(t) && inv(t) && rules.add(t, true, b).Ok?
      ensures inv(rules.add(t, true, b).value)
    {
      assert AcceptLaw(rules, t, b, rules.add(t, true, b).value);
    }
    ReplayInduction(rules, start, s.blocks[1..], s, inv);
  }

  lemma StartIsGenuine(rules: Rules, start: Ledger)
    requires IsStart(rules, start)
    ensures Genuine(rules, start, start)
  {
  }

  /** An accepted block extends the replay by itself. */
  lemma AddKeepsGenuine(rules: Rules, start: Ledger, s: Ledger, b: StoredBlock)
    requires Lawful(rules) && Genuine(rules, start, s)
    requires rules.add(s, true, b).Ok?
    ensures Genuine(rules, start, rules.add(s, true, b).value)
    ensures Parallel(s) && AcceptLaw(rules, s, b, rules.add(s, true, b).value)
  {
    GenuineFacts(rules, start, s);
    var s' := rules.add(s, true, b).value;
    assert AcceptLaw(rules, s, b, s');
    assert s'.blocks[1..] == s.blocks[1..] + [b];
    assert (s.blocks[1..] + [b])[..|s.blocks| - 1] == s.blocks[1..];
  }

  /** Popping a chain above genesis gives the genuine chain its last block was added to. */
  lemma PopKeepsGenuine(rules: Rules, start: Ledger, s: Ledger)
    requires Lawful(rules) && Genuine(rules, start, s) && |s.blocks| >= 2
    ensures Genuine(rules, start, rules.pop(s))
    ensures rules.pop(s).blocks == s.blocks[..|s.blocks| - 1]
    ensures rules.add(rules.pop(s), true, s.blocks[|s.blocks| - 1]) == Ok(s)
    ensures Parallel(rules.pop(s)) && AcceptLaw(rules, rules.pop(s), s.blocks[|s.blocks| - 1], s)
  {
    var history := s.blocks[1..];
    var last := |history| - 1;
    var before := Replayed(rules, start, history[..last]).value;
    ReplayFacts(rules, start, history[..last], before);
    ReplayFacts(rules, start, history, s);
    assert AcceptLaw(rules, before, history[last], s);
    assert before.blocks == s.blocks[..|s.blocks| - 1];
    assert before.blocks[1..] == history[..last];
  }

  /** Two genuine chains with the same blocks are the same chain, in every field. */
  lemma BlocksDetermineState(rules: Rules, start: Ledger, s: Ledger, t: Ledger)
    requires Genuine(rules, start, s) && Genuine(rules, start, t) && s.blocks == t.blocks
    ensures s == t
  {
  }

  // --- roll back -----------------------------------------------------------

  function PopTimes(rules: Rules, s: Ledger, n: nat): Ledger
    decreases n
  {
    if n == 0 then s else PopTimes(rules, rules.pop(s), n - 1)
  }

  /** How many blocks `rollback_to(height)` removes; genesis stays. */
  function Excess(s: Ledger, height: nat): nat {
    Max(|s.ids| - Max(height, 1), 0)
  }

  function RolledBack(rules: Rules, s: Ledger, height: nat): Ledger {
    PopTimes(rules, s, Excess(s, height))
  }

  /** The removed blocks, oldest first; a restored chain has fewer stored than its height. */
  function Removed(s: Ledger, height: nat): seq<StoredBlock> {
    s.blocks[Max(|s.blocks| - Excess(s, height), 0)..]
  }

  /** Popping n blocks leaves the replay of the others, and applying the removed ones again gives s back. */
  lemma {:induction false} PopTimesGenuine(rules: Rules, start: Ledger, s: Ledger, n: nat)
    requires Lawful(rules) && Genuine(rules, start, s) && n < |s.blocks|
    ensures Genuine(rules, start, PopTimes(rules, s, n))
    ensures PopTimes(rules, s, n).blocks == s.blocks[..|s.blocks| - n]
    ensures Parallel(s) && Parallel(PopTimes(rules, s, n))
    ensures PopTimes(rules, s, n).ids == s.ids[..|s.ids| - n]
    ensures Work(PopTimes(rules, s, n)) == s.work[|s.work| - 1 - n]
    ensures n > 0 ==> Work(PopTimes(rules, s, n)) < Work(s)
    decreases n
  {
    GenuineFacts(rules, start, s);
    if n > 0 {
      PopKeepsGenuine(rules, start, s);
      var t := rules.pop(s);
      PopTimesGenuine(rules, start, t, n - 1);
      assert s.work[..|t.work|] == t.work;
      assert s.ids[..|t.ids|] == t.ids;
    }
  }

  lemma RollbackFacts(rules: Rules, start: Ledger, s: Ledger, height: nat)
    requires Lawful(rules) && Genuine(rules, start, s)
    ensures Genuine(rules, start, RolledBack(rules, s, height))
    ensures RolledBack(rules, s, height).blocks + Removed(s, height) == s.blocks
    ensures |RolledBack(rules, s, height).blocks| == Min(|s.blocks|, Max(height, 1))
    ensures Parallel(s) && Parallel(RolledBack(rules, s, height))
    ensures RolledBack(rules, s, height).ids == s.ids[..Min(|s.blocks|, Max(height, 1))]
  {
    GenuineFacts(rules, start, s);
    PopTimesGenuine(rules, start, s, Excess(s, height));
    GenuineFacts(rules, start, RolledBack(rules, s, height));
  }
}
