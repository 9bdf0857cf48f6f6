/**
 Gossip under this chain's own rules (noct/core/src/p2p.rs): a node relays what its chain
 accepts, and its chain is what the blocks it was sent have made of it.
 */
module BlockRelay {
  import opened Types
  import opened Data
  import opened Oracles
  import opened Ledgers
  import opened Replay
  import opened Consensus
  import opened Gossip
  import opened BlockRules
  import TxRules

  function Appended(o: Crypto, s: Ledger, clock: U64, b: StoredBlock): Option<Ledger> {
    if s.Shaped() && Added(o, s, InTime(clock, b.block), b.block, b.txs).Ok? then
      Some(Added(o, s, InTime(clock, b.block), b.block, b.txs).value)
    else None
  }

  /** `validate_tx` and `add_block`, by a clock that shows a time at each delivery. */
  function NodeRules(o: Crypto, clock: nat -> U64): GossipRules {
    GossipRules(
      o.txHash,
      (b: StoredBlock) => o.blockId(b.block),
      (s: Ledger, tx: Transaction) => TxVerdict(o, s, tx).None?,
      (tick: nat, s: Ledger, b: StoredBlock) => Appended(o, s, clock(tick), b))
  }

  /** The clock decides whether a block is accepted, not what it does. */
  lemma {:induction false} AppendedIff(o: Crypto, s: Ledger, clock: U64, b: StoredBlock)
    requires s.Shaped()
    ensures Appended(o, s, clock, b).Some? <==> BlockFits(o, s, clock, b.block, b.txs)
    ensures Appended(o, s, clock, b).Some? ==>
              Added(o, s, true, b.block, b.txs) == Ok(Appended(o, s, clock, b).value)
  {
    AcceptedIff(o, s, clock, b.block, b.txs);
    if Appended(o, s, clock, b).Some? {
      JudgedFacts(o, s, InTime(clock, b.block), b.block, b.txs);
    }
  }

  lemma {:induction false} TookIsAppended(
    o: Crypto, clock: nat -> U64, s: Ledger, b: StoredBlock, after: Ledger)
    requires s.Shaped() && Took(NodeRules(o, clock), s, after, BlockMsg(b))
    ensures Added(o, s, true, b.block, b.txs) == Ok(after)
  {
    var tick :| NodeRules(o, clock).add(tick, s, b) == Some(after);
    AppendedIff(o, s, clock(tick), b);
  }

  lemma {:induction false} FittingIsAppended(o: Crypto, clock: nat -> U64, s: Ledger, b: StoredBlock)
    requires s.Shaped() && forall tick :: BlockFits(o, s, clock(tick), b.block, b.txs)
    ensures forall tick :: Appended(o, s, clock(tick), b).Some?
  {
    forall tick
      ensures Appended(o, s, clock(tick), b).Some?
    {
      AppendedIff(o, s, clock(tick), b);
    }
  }

  /** A block at its origin floods if it is accepted whatever the clock shows while it travels. */
  lemma {:induction false} AppendedFloods(o: Crypto, clock: nat -> U64, node: Node, b: StoredBlock)
    requires forall tick :: Appended(o, node.chain, clock(tick), b).Some?
    ensures Floods(NodeRules(o, clock), node, BlockMsg(b))
  {
    forall tick
      ensures NodeRules(o, clock).add(tick, node.chain, b).Some?
    {
    }
  }

  /**
   A new block that fits the chain all nodes hold ends up on the chains of exactly the
   nodes reachable from where it started: they all hold the same extended chain, and the
   others hold the old one.
   */
  lemma {:induction false} BlockReachesExactlyTheReachable(
    o: Crypto, clock: nat -> U64, coins: nat -> bool, nodes: seq<Node>, b: StoredBlock, origin: nat, s: Ledger)
    requires Closed(nodes) && origin < |nodes| && Fresh(NodeRules(o, clock), nodes, BlockMsg(b), s)
    requires s.Shaped() && forall tick :: BlockFits(o, s, clock(tick), b.block, b.txs)
    ensures Added(o, s, true, b.block, b.txs).Ok?
    ensures var rules := NodeRules(o, clock);
            var (nodes', out) := Delivered(rules, nodes, coins(0), 0, Envelope(origin, BlockMsg(b)));
            && Ready(rules, nodes', out, IdsIn(rules, out))
            && var end := Settle(rules, coins, 0, nodes', out, IdsIn(rules, out));
               |end| == |nodes|
               && forall n :: 0 <= n < |nodes| ==>
                    end[n].chain ==
                    if Reachable(nodes, origin, n) then Added(o, s, true, b.block, b.txs).value else s
  {
    var rules := NodeRules(o, clock);
    AppendedIff(o, s, clock(0), b);
    FittingIsAppended(o, clock, s, b);
    AppendedFloods(o, clock, nodes[origin], b);
    FloodIsAdoptedByExactlyTheReachable(rules, coins, nodes, BlockMsg(b), origin, s);
    var (nodes', out) := Delivered(rules, nodes, coins(0), 0, Envelope(origin, BlockMsg(b)));
    var end := Settle(rules, coins, 0, nodes', out, IdsIn(rules, out));
    forall n | 0 <= n < |nodes| && Reachable(nodes, origin, n)
      ensures Added(o, s, true, b.block, b.txs) == Ok(end[n].chain)
    {
      TookIsAppended(o, clock, s, b, end[n].chain);
    }
  }

  lemma {:induction false} AppendedStaysGenuine(o: Crypto, start: Ledger, s: Ledger, clock: U64, b: StoredBlock)
    requires Genuine(ConsensusRules(o), start, s) && Appended(o, s, clock, b).Some?
    ensures Genuine(ConsensusRules(o), start, Appended(o, s, clock, b).value)
  {
    ConsensusIsLawful(o);
    GenuineFacts(ConsensusRules(o), start, s);
    AppendedIff(o, s, clock, b);
    AddKeepsGenuine(ConsensusRules(o), start, s, b);
  }

  /** Whatever travels, and in whatever order it is delivered, every node's chain stays the replay of its blocks. */
  lemma {:induction false} NodesStayGenuine(
    o: Crypto, clock: nat -> U64, coins: nat -> bool, tick: nat, nodes: seq<Node>, queue: seq<Envelope>, ids: set<Id>,
    start: Ledger)
    requires Ready(NodeRules(o, clock), nodes, queue, ids)
    requires forall n :: 0 <= n < |nodes| ==> Genuine(ConsensusRules(o), start, nodes[n].chain)
    ensures var end := Settle(NodeRules(o, clock), coins, tick, nodes, queue, ids);
            |end| == |nodes| && forall n :: 0 <= n < |end| ==> Genuine(ConsensusRules(o), start, end[n].chain)
  {
    var rules := NodeRules(o, clock);
    var inv := (s: Ledger) => Genuine(ConsensusRules(o), start, s);
    forall t, s, b | inv(s) && rules.add(t, s, b).Some?
      ensures inv(rules.add(t, s, b).value)
    {
      AppendedStaysGenuine(o, start, s, clock(t), b);
    }
    SettleKeeps(rules, coins, tick, nodes, queue, ids, inv);
  }

  /** A node relays a transaction only if it meets every rule on the node's chain, and a block only if it does. */
  lemma {:induction false} OnlyWhatFitsIsRelayed(
    o: Crypto, clock: nat -> U64, node: Node, coin: bool, tick: nat, msg: Msg)
    requires node.chain.Shaped()
    requires Receive(NodeRules(o, clock), node, coin, tick, msg).1 != []
    ensures match msg
            case TxMsg(tx, _) =>
              && TxRules.Acceptable(o, node.chain, tx)
              && (tx.shielded.Some? ==> o.bundleOk(tx.shielded.value, o.bundleSighash(tx)))
            case BlockMsg(b) =>
              && BlockFits(o, node.chain, clock(tick), b.block, b.txs)
              && Ok(Receive(NodeRules(o, clock), node, coin, tick, msg).0.chain) ==
                 Added(o, node.chain, true, b.block, b.txs)
            case Other => false
  {
    ReceiveAnswers(NodeRules(o, clock), node, coin, tick, msg);
    match msg
    case TxMsg(tx, _) =>
      TxRules.TxVerdictIff(o, node.chain, tx);
    case BlockMsg(b) =>
      AppendedIff(o, node.chain, clock(tick), b);
    case Other =>
  }
}
