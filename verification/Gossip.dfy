/**
 Dandelion++ propagation and the in-memory transport (noct/core/src/p2p.rs): a step-wise
 flood with seen-sets. Validity and block acceptance come in as functions of the node's
 chain; coins are arbitrary. The mempool is left out, as nothing a node sends depends on it.
 */
module Gossip {
  import opened Types
  import opened Data
  import opened Ledgers

  datatype Msg = TxMsg(tx: Transaction, phase: Phase) | BlockMsg(block: StoredBlock) | Other

  datatype Envelope = Envelope(to: nat, msg: Msg)

  datatype Node = Node(
    peers: seq<nat>,
    successor: Option<nat>,
    seenTxs: set<Bytes32>,
    seenBlocks: set<Bytes32>,
    chain: Ledger)

  /** Ids and verdicts; `add` also sees when the delivery happens. */
  datatype GossipRules = GossipRules(
    txId: Transaction -> Bytes32,
    blockId: StoredBlock -> Bytes32,
    valid: (Ledger, Transaction) -> bool,
    add: (nat, Ledger, StoredBlock) -> Option<Ledger>)

  // --- one node ------------------------------------------------------------

  function Flood(peers: seq<nat>, msg: Msg): (out: seq<Envelope>)
    ensures |out| == |peers|
    ensures forall i :: 0 <= i < |peers| ==> out[i] == Envelope(peers[i], msg)
  {
    seq(|peers|, i requires 0 <= i < |peers| => Envelope(peers[i], msg))
  }

  /** `coin` is true when the hop switches to fluff. */
  function RelayStem(node: Node, coin: bool, tx: Transaction): seq<Envelope> {
    if node.successor.Some? && !coin then [Envelope(node.successor.value, TxMsg(tx, Stem))]
    else Flood(node.peers, TxMsg(tx, Fluff))
  }

  function ReceiveTx(rules: GossipRules, node: Node, coin: bool, tx: Transaction, phase: Phase): (Node, seq<Envelope>) {
    if rules.txId(tx) in node.seenTxs then (node, [])
    else
      var marked := node.(seenTxs := node.seenTxs + {rules.txId(tx)});
      if !rules.valid(node.chain, tx) then (marked, [])
      else if phase == Stem then (marked, RelayStem(node, coin, tx))
      else (marked, Flood(node.peers, TxMsg(tx, Fluff)))
  }

  function ReceiveBlock(rules: GossipRules, node: Node, tick: nat, b: StoredBlock): (Node, seq<Envelope>) {
    if rules.blockId(b) in node.seenBlocks then (node, [])
    else
      var marked := node.(seenBlocks := node.seenBlocks + {rules.blockId(b)});
      var added := rules.add(tick, node.chain, b);
      if added.None? then (marked, [])
      else (marked.(chain := added.value), Flood(node.peers, BlockMsg(b)))
  }

  function Receive(rules: GossipRules, node: Node, coin: bool, tick: nat, msg: Msg): (Node, seq<Envelope>) {
    match msg
    case TxMsg(tx, phase) => ReceiveTx(rules, node, coin, tx, phase)
    case BlockMsg(b) => ReceiveBlock(rules, node, tick, b)
    case Other => (node, [])
  }

  /** What a node keeps track of a message by. */
  datatype Id = TxId(id: Bytes32) | BlockId(id: Bytes32) | NoId

  function IdOf(rules: GossipRules, msg: Msg): Id {
    match msg
    case TxMsg(tx, _) => TxId(rules.txId(tx))
    case BlockMsg(b) => BlockId(rules.blockId(b))
    case Other => NoId
  }

  predicate Seen(node: Node, id: Id) {
    match id
    case TxId(t) => t in node.seenTxs
    case BlockId(b) => b in node.seenBlocks
    case NoId => true
  }

  /** One delivery: a node answers only to an id it had not seen, and has seen it from then on. */
  lemma ReceiveMarks(rules: GossipRules, node: Node, coin: bool, tick: nat, msg: Msg)
    ensures var (node', out) := Receive(rules, node, coin, tick, msg);
            && (Seen(node, IdOf(rules, msg)) ==> node' == node && out == [])
            && (forall id :: Seen(node', id) <==> Seen(node, id) || id == IdOf(rules, msg))
            && node'.peers == node.peers && node'.successor == node.successor
            && (forall e :: e in out ==> IdOf(rules, e.msg) == IdOf(rules, msg))
            && (forall e :: e in out ==> e.to in node.peers || Some(e.to) == node.successor)
  {
    var (node', out) := Receive(rules, node, coin, tick, msg);
    forall id
      ensures Seen(node', id) <==> Seen(node, id) || id == IdOf(rules, msg)
    {
    }
  }

  /** The message, once to every peer in order. */
  predicate ToAllPeers(node: Node, out: seq<Envelope>, msg: Msg) {
    |out| == |node.peers| && forall i :: 0 <= i < |out| ==> out[i].to == node.peers[i] && out[i].msg == msg
  }

  /**
   What a delivery does. A block not seen before that the chain takes becomes its tip and
   goes to every peer. A transaction not seen before that is valid on the chain goes, from
   a stem message without the coin, to the successor if there is one, still as a stem
   message; otherwise it fluffs to every peer. Nothing else is sent, and no other message
   touches the chain.
   */
  predicate Answers(rules: GossipRules, node: Node, coin: bool, tick: nat, msg: Msg, node': Node, out: seq<Envelope>) {
    if Seen(node, IdOf(rules, msg)) then node' == node && out == []
    else if msg.BlockMsg? && rules.add(tick, node.chain, msg.block).Some? then
      Some(node'.chain) == rules.add(tick, node.chain, msg.block) && ToAllPeers(node, out, msg)
    else if msg.TxMsg? && rules.valid(node.chain, msg.tx) then
      && node'.chain == node.chain
      && if msg.phase == Stem && !coin && node.successor.Some? then
           |out| == 1 && out[0].to == node.successor.value && out[0].msg == msg
         else ToAllPeers(node, out, TxMsg(msg.tx, Fluff))
    else node'.chain == node.chain && out == []
  }

  lemma ReceiveAnswers(rules: GossipRules, node: Node, coin: bool, tick: nat, msg: Msg)
    ensures var (node', out) := Receive(rules, node, coin, tick, msg);
            Answers(rules, node, coin, tick, msg, node', out)
  {
    var (node', out) := Receive(rules, node, coin, tick, msg);
    match msg
    case TxMsg(tx, phase) =>
    case BlockMsg(b) =>
    case Other =>
  }

  // --- the network ---------------------------------------------------------

  predicate Closed(nodes: seq<Node>) {
    forall n :: 0 <= n < |nodes| ==>
      (forall p :: p in nodes[n].peers ==> p < |nodes|)
          && (nodes[n].successor.Some? ==> nodes[n].successor.value < |nodes|)
  }

  predicate Addressed(nodes: seq<Node>, queue: seq<Envelope>) {
    forall e :: e in queue ==> e.to < |nodes|
  }

  /** Ids of the list that the node has not seen. */
  function UnseenBy(node: Node, ids: set<Id>): set<Id> {
    set id | id in ids && !Seen(node, id)
  }

  function Unseen(nodes: seq<Node>, ids: set<Id>): nat {
    if nodes == [] then 0 else |UnseenBy(nodes[0], ids)| + Unseen(nodes[1..], ids)
  }

  predicate Carries(rules: GossipRules, queue: seq<Envelope>, ids: set<Id>) {
    forall e :: e in queue ==> IdOf(rules, e.msg) in ids
  }

  lemma {:induction false} UnseenDrops(nodes: seq<Node>, n: nat, node': Node, ids: set<Id>, id: Id)
    requires n < |nodes| && id in ids && !Seen(nodes[n], id)
    requires forall i :: Seen(node', i) <==> Seen(nodes[n], i) || i == id
    ensures Unseen(nodes[n := node'], ids) < Unseen(nodes, ids)
  {
    var after := nodes[n := node'];
    if n == 0 {
      assert after[1..] == nodes[1..];
      assert UnseenBy(nodes[0], ids) == UnseenBy(node', ids) + {id};
    } else {
      UnseenDrops(nodes[1..], n - 1, node', ids, id);
      assert after[1..] == nodes[1..][n - 1 := node'];
    }
  }

  function Delivered(rules: GossipRules, nodes: seq<Node>, coin: bool, tick: nat, e: Envelope): (seq<Node>,
      seq<Envelope>)
    requires e.to < |nodes|
  {
    var (node, out) := Receive(rules, nodes[e.to], coin, tick, e.msg);
    (nodes[e.to := node], out)
  }

  /** Every link leads to a node, every message to a node, and no message carries an id outside the list. */
  ghost predicate Ready(rules: GossipRules, nodes: seq<Node>, queue: seq<Envelope>, ids: set<Id>) {
    Closed(nodes) && Addressed(nodes, queue) && Carries(rules, queue, ids)
  }

  ghost predicate SameGraph(nodes: seq<Node>, nodes': seq<Node>) {
    |nodes'| == |nodes|
    && forall n :: 0 <= n < |nodes| ==>
         nodes'[n].peers == nodes[n].peers && nodes'[n].successor == nodes[n].successor
  }

  /** One delivery brings the network nearer to silence: fewer unseen ids, or a shorter queue. */
  lemma DeliveryProgresses(
    rules: GossipRules, nodes: seq<Node>, coin: bool, tick: nat, queue: seq<Envelope>, ids: set<Id>)
    requires Ready(rules, nodes, queue, ids) && queue != []
    ensures var (nodes', out) := Delivered(rules, nodes, coin, tick, queue[0]);
            && Ready(rules, nodes', queue[1..] + out, ids) && SameGraph(nodes, nodes')
            && if Seen(nodes[queue[0].to], IdOf(rules, queue[0].msg)) then nodes' == nodes && out == []
               else Unseen(nodes', ids) < Unseen(nodes, ids)
  {
    var e := queue[0];
    ReceiveMarks(rules, nodes[e.to], coin, tick, e.msg);
    var (node', out) := Receive(rules, nodes[e.to], coin, tick, e.msg);
    assert e in queue && forall f :: f in queue[1..] ==> f in queue;
    if !Seen(nodes[e.to], IdOf(rules, e.msg)) {
      UnseenDrops(nodes, e.to, node', ids, IdOf(rules, e.msg));
    } else {
      assert nodes[e.to := node'] == nodes;
    }
  }

  /** Everything delivered until the queue is empty; the `tick`-th delivery sees the `tick`-th coin. */
  ghost function Settle(
    rules: GossipRules, coins: nat -> bool, tick: nat, nodes: seq<Node>, queue: seq<Envelope>, ids: set<Id>): seq<Node>
    requires Ready(rules, nodes, queue, ids)
    decreases Unseen(nodes, ids), |queue|
  {
    if queue == [] then nodes
    else
      DeliveryProgresses(rules, nodes, coins(tick), tick, queue, ids);
      var (nodes', out) := Delivered(rules, nodes, coins(tick), tick, queue[0]);
      Settle(rules, coins, tick + 1, nodes', queue[1..] + out, ids)
  }

  function IdsIn(rules: GossipRules, queue: seq<Envelope>): set<Id> {
    set e | e in queue :: IdOf(rules, e.msg)
  }

  /** How many messages each delivery sends on, until the network is silent. */
  ghost function FanOuts(
    rules: GossipRules, coins: nat -> bool, tick: nat, nodes: seq<Node>, queue: seq<Envelope>, ids: set<Id>): seq<nat>
    requires Ready(rules, nodes, queue, ids)
    decreases Unseen(nodes, ids), |queue|
  {
    if queue == [] then []
    else
      DeliveryProgresses(rules, nodes, coins(tick), tick, queue, ids);
      var (nodes', out) := Delivered(rules, nodes, coins(tick), tick, queue[0]);
      [|out|] + FanOuts(rules, coins, tick + 1, nodes', queue[1..] + out, ids)
  }

  /** The largest of a list, zero if it is empty. */
  predicate Largest(fans: seq<nat>, most: nat) {
    (forall i :: 0 <= i < |fans| ==> fans[i] <= most) && (most == 0 || most in fans)
  }

  /** From here the network settles in `end`; `fans` has been sent on so far, the rest of `all` still will be. */
  ghost predicate Underway(
    rules: GossipRules, coins: nat -> bool, tick: nat, nodes: seq<Node>, queue: seq<Envelope>, ids: set<Id>,
    fans: seq<nat>, most: nat, end: seq<Node>, all: seq<nat>)
  {
    && Ready(rules, nodes, queue, ids) && Settle(rules, coins, tick, nodes, queue, ids) == end
    && fans + FanOuts(rules, coins, tick, nodes, queue, ids) == all && tick == |fans| && Largest(fans, most)
  }

  lemma {:induction false} OneDelivery(
    rules: GossipRules, coins: nat -> bool, tick: nat, nodes: seq<Node>, queue: seq<Envelope>, ids: set<Id>,
    fans: seq<nat>, most: nat, end: seq<Node>, all: seq<nat>, nodes': seq<Node>, out: seq<Envelope>)
    requires Underway(rules, coins, tick, nodes, queue, ids, fans, most, end, all) && queue != []
    requires queue[0].to < |nodes| && (nodes', out) == Delivered(rules, nodes, coins(tick), tick, queue[0])
    ensures Underway(rules, coins, tick + 1, nodes', queue[1..] + out, ids, fans + [|out|], Max(most, |out|), end, all)
    ensures Unseen(nodes', ids) < Unseen(nodes, ids) || (nodes' == nodes && out == [])
  {
    DeliveryProgresses(rules, nodes, coins(tick), tick, queue, ids);
    var later := FanOuts(rules, coins, tick + 1, nodes', queue[1..] + out, ids);
    assert fans + ([|out|] + later) == (fans + [|out|]) + later;
  }

  lemma {:induction false} NothingDelivered(
    rules: GossipRules, coins: nat -> bool, nodes: seq<Node>, queue: seq<Envelope>)
    requires Closed(nodes) && Addressed(nodes, queue)
    ensures var ids := IdsIn(rules, queue);
            && Ready(rules, nodes, queue, ids)
            && Underway(rules, coins, 0, nodes, queue, ids, [], 0, Settle(rules, coins, 0, nodes, queue, ids),
                        FanOuts(rules, coins, 0, nodes, queue, ids))
  {
    var all := FanOuts(rules, coins, 0, nodes, queue, IdsIn(rules, queue));
    assert [] + all == all;
  }

  lemma FirstAddressed(nodes: seq<Node>, queue: seq<Envelope>)
    requires Addressed(nodes, queue) && queue != []
    ensures queue[0].to < |nodes|
  {
    assert queue[0] in queue;
  }

  class Network {
    var nodes: seq<Node>

    constructor (nodes_: seq<Node>)
      ensures nodes == nodes_
    {
      nodes := nodes_;
    }

    method Deliver(rules: GossipRules, coin: bool, tick: nat, e: Envelope) returns (out: seq<Envelope>)
      requires e.to < |nodes|
      modifies this
      ensures (nodes, out) == Delivered(rules, old(nodes), coin, tick, e)
    {
      var received := Receive(rules, nodes[e.to], coin, tick, e.msg);
      out := received.1;
      nodes := nodes[e.to := received.0];
    }

    /** Delivers the initial messages and everything they trigger; the loop ends whatever the coins. */
    method Run(rules: GossipRules, coins: nat -> bool, initial: seq<Envelope>) returns (delivered: nat, maxFanOut: nat)
      requires Closed(nodes) && Addressed(nodes, initial)
      modifies this
      ensures nodes == Settle(rules, coins, 0, old(nodes), initial, IdsIn(rules, initial))
      ensures var fans := FanOuts(rules, coins, 0, old(nodes), initial, IdsIn(rules, initial));
              delivered == |fans| && Largest(fans, maxFanOut)
    {
      var queue := initial;
      ghost var ids, fans: seq<nat> := IdsIn(rules, initial), [];
      NothingDelivered(rules, coins, nodes, initial);
      ghost var end, all := Settle(rules, coins, 0, nodes, initial, ids), FanOuts(rules, coins, 0, nodes, initial, ids);
      delivered, maxFanOut := 0, 0;
      while queue != []
        invariant Underway(rules, coins, delivered, nodes, queue, ids, fans, maxFanOut, end, all)
        decreases Unseen(nodes, ids), |queue|
      {
        FirstAddressed(nodes, queue);
        var e := queue[0];
        ghost var before := nodes;
        var out := Deliver(rules, coins(delivered), delivered, e);
        OneDelivery(rules, coins, delivered, before, queue, ids, fans, maxFanOut, end, all, nodes, out);
        delivered := delivered + 1;
        maxFanOut := Max(maxFanOut, |out|);
        fans := fans + [|out|];
        queue := queue[1..] + out;
      }
    }
  }

  // --- each id at most once ------------------------------------------------

  /** A node sending something on because of a message it received. */
  datatype Relay = Relay(node: nat, id: Id)

  /** Who relays what until the network is silent, in order. */
  ghost function Relays(
    rules: GossipRules, coins: nat -> bool, tick: nat, nodes: seq<Node>, queue: seq<Envelope>, ids: set<Id>): seq<Relay>
    requires Ready(rules, nodes, queue, ids)
    decreases Unseen(nodes, ids), |queue|
  {
    if queue == [] then []
    else
      DeliveryProgresses(rules, nodes, coins(tick), tick, queue, ids);
      var (nodes', out) := Delivered(rules, nodes, coins(tick), tick, queue[0]);
      (if out == [] then [] else [Relay(queue[0].to, IdOf(rules, queue[0].msg))])
      + Relays(rules, coins, tick + 1, nodes', queue[1..] + out, ids)
  }

  /** No node relays an id it had seen before, and none relays an id twice. */
  lemma {:induction false} RelaysOnce(
    rules: GossipRules, coins: nat -> bool, tick: nat, nodes: seq<Node>, queue: seq<Envelope>, ids: set<Id>)
    requires Ready(rules, nodes, queue, ids)
    ensures var log := Relays(rules, coins, tick, nodes, queue, ids);
            && (forall r :: r in log ==> r.node < |nodes| && !Seen(nodes[r.node], r.id))
            && Distinct(log)
    decreases Unseen(nodes, ids), |queue|
  {
    if queue != [] {
      var e := queue[0];
      DeliveryProgresses(rules, nodes, coins(tick), tick, queue, ids);
      ReceiveMarks(rules, nodes[e.to], coins(tick), tick, e.msg);
      var (nodes', out) := Delivered(rules, nodes, coins(tick), tick, e);
      RelaysOnce(rules, coins, tick + 1, nodes', queue[1..] + out, ids);
      var later := Relays(rules, coins, tick + 1, nodes', queue[1..] + out, ids);
      if out == [] {
        assert [] + later == later;
      } else {
        assert ([Relay(e.to, IdOf(rules, e.msg))] + later)[1..] == later;
      }
    }
  }

  // --- coverage ------------------------------------------------------------

  /** A walk along peer links. */
  predicate IsPath(nodes: seq<Node>, path: seq<nat>, from: nat, to: nat) {
    && |path| > 0 && path[0] == from && path[|path| - 1] == to
    && (forall i :: 0 <= i < |path| ==> path[i] < |nodes|)
    && (forall i :: 0 <= i < |path| - 1 ==> path[i + 1] in nodes[path[i]].peers)
  }

  ghost predicate Reachable(nodes: seq<Node>, from: nat, to: nat) {
    exists path :: IsPath(nodes, path, from, to)
  }

  lemma ReachableStep(nodes: seq<Node>, from: nat, n: nat, p: nat)
    requires Closed(nodes) && Reachable(nodes, from, n) && n < |nodes| && p in nodes[n].peers
    ensures Reachable(nodes, from, p)
  {
    var path :| IsPath(nodes, path, from, n);
    assert IsPath(nodes, path + [p], from, p);
  }

  lemma {:induction false} ClosedHoldsPath(nodes: seq<Node>, marked: set<nat>, path: seq<nat>, from: nat, to: nat)
    requires IsPath(nodes, path, from, to) && from in marked
    requires forall n, p :: n in marked && n < |nodes| && p in nodes[n].peers ==> p in marked
    ensures to in marked
    decreases |path|
  {
    if |path| > 1 {
      assert path[0 + 1] in nodes[path[0]].peers;
      ClosedHoldsPath(nodes, marked, path[1..], path[1], to);
    }
  }

  /** The node would take the message in and pass it on to all its peers, whenever it comes. */
  ghost predicate Floods(rules: GossipRules, node: Node, msg: Msg) {
    match msg
    case TxMsg(tx, phase) => phase == Fluff && rules.valid(node.chain, tx)
    case BlockMsg(b) => forall tick :: rules.add(tick, node.chain, b).Some?
    case Other => false
  }

  /**
   A flood under way on the links of `g`: only copies of one message travel, every marked
   node is reachable and has sent to every unmarked peer, and every unmarked node would
   flood.
   */
  ghost predicate Flooding(
    rules: GossipRules, g: seq<Node>, nodes: seq<Node>, queue: seq<Envelope>, msg: Msg, origin: nat) {
    var id := IdOf(rules, msg);
    && SameGraph(g, nodes) && origin < |nodes| && Seen(nodes[origin], id)
    && (forall e :: e in queue ==> e.msg == msg && Reachable(g, origin, e.to))
    && (forall n :: 0 <= n < |nodes| && Seen(nodes[n], id) ==> Reachable(g, origin, n))
    && (forall n, p :: 0 <= n < |nodes| && Seen(nodes[n], id) && p in nodes[n].peers && p < |nodes| ==>
          Seen(nodes[p], id) || Envelope(p, msg) in queue)
    && (forall n :: 0 <= n < |nodes| && !Seen(nodes[n], id) ==> Floods(rules, nodes[n], msg))
  }

  lemma FloodReply(rules: GossipRules, node: Node, coin: bool, tick: nat, msg: Msg)
    requires Floods(rules, node, msg) && !Seen(node, IdOf(rules, msg))
    ensures Receive(rules, node, coin, tick, msg).1 == Flood(node.peers, msg)
  {
  }

  lemma FloodMarked(
    rules: GossipRules, g: seq<Node>, nodes: seq<Node>, coin: bool, tick: nat, queue: seq<Envelope>, msg: Msg,
    origin: nat)
    requires Closed(nodes) && Addressed(nodes, queue) && queue != [] && Closed(g)
    requires Flooding(rules, g, nodes, queue, msg, origin) && Seen(nodes[queue[0].to], IdOf(rules, msg))
    ensures var (nodes', out) := Delivered(rules, nodes, coin, tick, queue[0]);
            Flooding(rules, g, nodes', queue[1..] + out, msg, origin)
  {
    var e := queue[0];
    assert e in queue;
    ReceiveMarks(rules, nodes[e.to], coin, tick, e.msg);
    assert nodes[e.to := nodes[e.to]] == nodes;
    assert queue[1..] + [] == queue[1..];
    assert queue == [e] + queue[1..];
  }

  lemma FloodSpreads(
    rules: GossipRules, g: seq<Node>, nodes: seq<Node>, coin: bool, tick: nat, queue: seq<Envelope>, msg: Msg,
    origin: nat)
    requires Closed(nodes) && Addressed(nodes, queue) && queue != [] && Closed(g)
    requires Flooding(rules, g, nodes, queue, msg, origin) && !Seen(nodes[queue[0].to], IdOf(rules, msg))
    ensures var (nodes', out) := Delivered(rules, nodes, coin, tick, queue[0]);
            Flooding(rules, g, nodes', queue[1..] + out, msg, origin)
  {
    var e, id := queue[0], IdOf(rules, msg);
    assert e in queue;
    ReceiveMarks(rules, nodes[e.to], coin, tick, msg);
    FloodReply(rules, nodes[e.to], coin, tick, msg);
    var (nodes', out) := Delivered(rules, nodes, coin, tick, e);
    var queue' := queue[1..] + out;
    assert queue == [e] + queue[1..];
    forall f | f in queue'
      ensures f.msg == msg && Reachable(g, origin, f.to)
    {
      if f in out {
        ReachableStep(g, origin, e.to, f.to);
      }
    }
    forall n, p | 0 <= n < |nodes'| && Seen(nodes'[n], id) && p in nodes'[n].peers && p < |nodes'|
      ensures Seen(nodes'[p], id) || Envelope(p, msg) in queue'
    {
      if n == e.to {
        var i :| 0 <= i < |nodes[n].peers| && nodes[n].peers[i] == p;
        assert out[i] == Envelope(p, msg);
      } else if !Seen(nodes[p], id) {
        assert Envelope(p, msg) in queue;
      }
    }
  }

  lemma SilentFloodCovers(rules: GossipRules, g: seq<Node>, nodes: seq<Node>, msg: Msg, origin: nat)
    requires Closed(g) && Flooding(rules, g, nodes, [], msg, origin)
    ensures forall n :: 0 <= n < |g| ==> (Seen(nodes[n], IdOf(rules, msg)) <==> Reachable(g, origin, n))
  {
    var marked := set n: nat | n < |nodes| && Seen(nodes[n], IdOf(rules, msg));
    forall n: nat | n < |g| && Reachable(g, origin, n)
      ensures Seen(nodes[n], IdOf(rules, msg))
    {
      var path :| IsPath(g, path, origin, n);
      ClosedHoldsPath(g, marked, path, origin, n);
    }
  }

  lemma {:induction false} FloodCovers(
    rules: GossipRules, coins: nat -> bool, tick: nat, g: seq<Node>, nodes: seq<Node>, queue: seq<Envelope>,
    ids: set<Id>,
    msg: Msg, origin: nat)
    requires Ready(rules, nodes, queue, ids) && Closed(g) && Flooding(rules, g, nodes, queue, msg, origin)
    ensures var end := Settle(rules, coins, tick, nodes, queue, ids);
            |end| == |g| && forall n :: 0 <= n < |g| ==> (Seen(end[n], IdOf(rules, msg)) <==> Reachable(g, origin, n))
    decreases Unseen(nodes, ids), |queue|
  {
    if queue == [] {
      SilentFloodCovers(rules, g, nodes, msg, origin);
    } else {
      DeliveryProgresses(rules, nodes, coins(tick), tick, queue, ids);
      if Seen(nodes[queue[0].to], IdOf(rules, msg)) {
        FloodMarked(rules, g, nodes, coins(tick), tick, queue, msg, origin);
      } else {
        FloodSpreads(rules, g, nodes, coins(tick), tick, queue, msg, origin);
      }
      var (nodes', out) := Delivered(rules, nodes, coins(tick), tick, queue[0]);
      assert queue[0] in queue;
      FloodCovers(rules, coins, tick + 1, g, nodes', queue[1..] + out, ids, msg, origin);
    }
  }

  /** Nobody has seen the message, and everybody holds the same chain. */
  predicate Fresh(rules: GossipRules, nodes: seq<Node>, msg: Msg, chain: Ledger) {
    forall n :: 0 <= n < |nodes| ==> !Seen(nodes[n], IdOf(rules, msg)) && nodes[n].chain == chain
  }

  lemma FirstFlood(rules: GossipRules, nodes: seq<Node>, coin: bool, tick: nat, msg: Msg, origin: nat, chain: Ledger)
    requires Closed(nodes) && origin < |nodes| && Fresh(rules, nodes, msg, chain)
    requires Floods(rules, nodes[origin], msg)
    ensures var (nodes', out) := Delivered(rules, nodes, coin, tick, Envelope(origin, msg));
            && Ready(rules, nodes', out, IdsIn(rules, out)) && SameGraph(nodes, nodes')
            && Flooding(rules, nodes, nodes', out, msg, origin)
  {
    var id := IdOf(rules, msg);
    ReceiveMarks(rules, nodes[origin], coin, tick, msg);
    FloodReply(rules, nodes[origin], coin, tick, msg);
    var (nodes', out) := Delivered(rules, nodes, coin, tick, Envelope(origin, msg));
    assert IsPath(nodes, [origin], origin, origin);
    forall e | e in out
      ensures e.msg == msg && Reachable(nodes, origin, e.to) && e.to < |nodes|
    {
      ReachableStep(nodes, origin, origin, e.to);
    }
    forall n, p | 0 <= n < |nodes'| && Seen(nodes'[n], id) && p in nodes'[n].peers && p < |nodes'|
      ensures Seen(nodes'[p], id) || Envelope(p, msg) in out
    {
      var i :| 0 <= i < |nodes[n].peers| && nodes[n].peers[i] == p;
      assert out[i] == Envelope(p, msg);
    }
  }

  /**
   A fresh block, or a transaction that fluffs at its origin, ends up marked at exactly
   the nodes reachable from where it started, when all nodes hold one chain and that
   chain takes it.
   */
  lemma FloodReachesExactlyTheReachable(
    rules: GossipRules, coins: nat -> bool, nodes: seq<Node>, msg: Msg, origin: nat, chain: Ledger)
    requires Closed(nodes) && origin < |nodes| && Fresh(rules, nodes, msg, chain)
    requires Floods(rules, nodes[origin], msg)
    ensures var (nodes', out) := Delivered(rules, nodes, coins(0), 0, Envelope(origin, msg));
            && Ready(rules, nodes', out, IdsIn(rules, out))
            && var end := Settle(rules, coins, 0, nodes', out, IdsIn(rules, out));
               |end| == |nodes|
               && forall n :: 0 <= n < |nodes| ==> (Seen(end[n], IdOf(rules, msg)) <==> Reachable(nodes, origin, n))
  {
    FirstFlood(rules, nodes, coins(0), 0, msg, origin, chain);
    var (nodes', out) := Delivered(rules, nodes, coins(0), 0, Envelope(origin, msg));
    FloodCovers(rules, coins, 0, nodes, nodes', out, IdsIn(rules, out), msg, origin);
  }

  /** The chain after a node has taken the message in: the one `add` gave for a block, the same for a transaction. */
  ghost predicate Took(rules: GossipRules, before: Ledger, after: Ledger, msg: Msg) {
    match msg
    case BlockMsg(b) => exists tick :: rules.add(tick, before, b) == Some(after)
    case _ => after == before
  }

  /** Marked nodes have taken the message in, the others hold what they held. */
  ghost predicate Adopted(rules: GossipRules, g: seq<Node>, nodes: seq<Node>, msg: Msg) {
    |nodes| == |g| && forall n :: 0 <= n < |g| ==>
      if Seen(nodes[n], IdOf(rules, msg)) then Took(rules, g[n].chain, nodes[n].chain, msg)
      else nodes[n].chain == g[n].chain
  }

  lemma {:induction false} DeliveryAdopts(
    rules: GossipRules, g: seq<Node>, nodes: seq<Node>, coin: bool, tick: nat, msg: Msg, to: nat)
    requires to < |nodes| && Adopted(rules, g, nodes, msg)
    requires Seen(nodes[to], IdOf(rules, msg)) || Floods(rules, nodes[to], msg)
    ensures Adopted(rules, g, Delivered(rules, nodes, coin, tick, Envelope(to, msg)).0, msg)
  {
    ReceiveMarks(rules, nodes[to], coin, tick, msg);
    ReceiveAnswers(rules, nodes[to], coin, tick, msg);
  }

  lemma {:induction false} FloodAdopts(
    rules: GossipRules, coins: nat -> bool, tick: nat, g: seq<Node>, nodes: seq<Node>, queue: seq<Envelope>,
    ids: set<Id>, msg: Msg, origin: nat)
    requires Ready(rules, nodes, queue, ids) && Closed(g) && Flooding(rules, g, nodes, queue, msg, origin)
    requires Adopted(rules, g, nodes, msg)
    ensures Adopted(rules, g, Settle(rules, coins, tick, nodes, queue, ids), msg)
    decreases Unseen(nodes, ids), |queue|
  {
    if queue != [] {
      assert queue[0] in queue && queue[0] == Envelope(queue[0].to, msg);
      DeliveryProgresses(rules, nodes, coins(tick), tick, queue, ids);
      DeliveryAdopts(rules, g, nodes, coins(tick), tick, msg, queue[0].to);
      if Seen(nodes[queue[0].to], IdOf(rules, msg)) {
        FloodMarked(rules, g, nodes, coins(tick), tick, queue, msg, origin);
      } else {
        FloodSpreads(rules, g, nodes, coins(tick), tick, queue, msg, origin);
      }
      var (nodes', out) := Delivered(rules, nodes, coins(tick), tick, queue[0]);
      FloodAdopts(rules, coins, tick + 1, g, nodes', queue[1..] + out, ids, msg, origin);
    }
  }

  /**
   When such a flood is over, exactly the reachable nodes have taken the message in: a block
   is on their chains and on no other, and a transaction has changed no chain.
   */
  lemma {:induction false} FloodIsAdoptedByExactlyTheReachable(
    rules: GossipRules, coins: nat -> bool, nodes: seq<Node>, msg: Msg, origin: nat, chain: Ledger)
    requires Closed(nodes) && origin < |nodes| && Fresh(rules, nodes, msg, chain)
    requires Floods(rules, nodes[origin], msg)
    ensures var (nodes', out) := Delivered(rules, nodes, coins(0), 0, Envelope(origin, msg));
            && Ready(rules, nodes', out, IdsIn(rules, out))
            && var end := Settle(rules, coins, 0, nodes', out, IdsIn(rules, out));
               |end| == |nodes|
               && forall n :: 0 <= n < |nodes| ==>
                    if Reachable(nodes, origin, n) then Took(rules, chain, end[n].chain, msg)
                    else end[n].chain == chain
  {
    FirstFlood(rules, nodes, coins(0), 0, msg, origin, chain);
    FloodReachesExactlyTheReachable(rules, coins, nodes, msg, origin, chain);
    DeliveryAdopts(rules, nodes, nodes, coins(0), 0, msg, origin);
    var (nodes', out) := Delivered(rules, nodes, coins(0), 0, Envelope(origin, msg));
    FloodAdopts(rules, coins, 0, nodes, nodes', out, IdsIn(rules, out), msg, origin);
  }

  /** What every chain has and every accepted block keeps, every chain has when the network is silent again. */
  lemma {:induction false} SettleKeeps(
    rules: GossipRules, coins: nat -> bool, tick: nat, nodes: seq<Node>, queue: seq<Envelope>, ids: set<Id>,
    inv: Ledger -> bool)
    requires Ready(rules, nodes, queue, ids) && forall n :: 0 <= n < |nodes| ==> inv(nodes[n].chain)
    requires forall t, s, b :: inv(s) && rules.add(t, s, b).Some? ==> inv(rules.add(t, s, b).value)
    ensures var end := Settle(rules, coins, tick, nodes, queue, ids);
            |end| == |nodes| && forall n :: 0 <= n < |end| ==> inv(end[n].chain)
    decreases Unseen(nodes, ids), |queue|
  {
    if queue != [] {
      var e := queue[0];
      DeliveryProgresses(rules, nodes, coins(tick), tick, queue, ids);
      ReceiveAnswers(rules, nodes[e.to], coins(tick), tick, e.msg);
      var (nodes', out) := Delivered(rules, nodes, coins(tick), tick, e);
      SettleKeeps(rules, coins, tick + 1, nodes', queue[1..] + out, ids, inv);
    }
  }

  /** `originate`: as a stem delivery to oneself. */
  function Originated(rules: GossipRules, nodes: seq<Node>, coin: bool, tick: nat, tx: Transaction, origin: nat)
    : (seq<Node>, seq<Envelope>)
    requires origin < |nodes|
  {
    Delivered(rules, nodes, coin, tick, Envelope(origin, TxMsg(tx, Stem)))
  }

  /** With every coin on fluff, a fresh valid transaction reaches exactly the nodes reachable from its origin. */
  lemma FluffedTransactionReachesAll(
    rules: GossipRules, coins: nat -> bool, nodes: seq<Node>, tx: Transaction, origin: nat, chain: Ledger)
    requires Closed(nodes) && origin < |nodes| && Fresh(rules, nodes, TxMsg(tx, Fluff), chain)
    requires rules.valid(chain, tx) && coins(0)
    ensures var (nodes', out) := Originated(rules, nodes, coins(0), 0, tx, origin);
            && Ready(rules, nodes', out, IdsIn(rules, out))
            && var end := Settle(rules, coins, 0, nodes', out, IdsIn(rules, out));
               |end| == |nodes|
               && forall n :: 0 <= n < |nodes| ==> (rules.txId(tx) in end[n].seenTxs <==> Reachable(nodes, origin, n))
  {
    var msg := TxMsg(tx, Fluff);
    FloodReachesExactlyTheReachable(rules, coins, nodes, msg, origin, chain);
    assert Originated(rules, nodes, coins(0), 0, tx, origin) ==
        Delivered(rules, nodes, coins(0), 0, Envelope(origin, msg));
    var (nodes', out) := Originated(rules, nodes, coins(0), 0, tx, origin);
    var end := Settle(rules, coins, 0, nodes', out, IdsIn(rules, out));
    forall n | 0 <= n < |nodes|
      ensures rules.txId(tx) in end[n].seenTxs <==> Reachable(nodes, origin, n)
    {
      assert Seen(end[n], IdOf(rules, msg)) <==> rules.txId(tx) in end[n].seenTxs;
    }
  }

  /** Three nodes in a line whose first two are each other's stem successor. */
  function Line(chain: Ledger): seq<Node> {
    [Node([1], Some(1), {}, {}, chain), Node([0, 2], Some(0), {}, {}, chain), Node([1], None, {}, {}, chain)]
  }

  /**
   With mixed coins there is no such promise: two stem hops can hand a transaction back to
   a node that has seen it, and the third node never hears of it though it is reachable.
   */
  lemma StemMayLoseATransaction(rules: GossipRules, tx: Transaction, chain: Ledger)
    requires rules.valid(chain, tx)
    ensures var (n1, q1) := Originated(rules, Line(chain), false, 0, tx, 0);
            && q1 == [Envelope(1, TxMsg(tx, Stem))] && |n1| == 3
            && var (n2, q2) := Delivered(rules, n1, false, 0, q1[0]);
               && q2 == [Envelope(0, TxMsg(tx, Stem))] && |n2| == 3
               && var (n3, q3) := Delivered(rules, n2, false, 1, q2[0]);
                  && q3 == [] && |n3| == 3
                  && rules.txId(tx) !in n3[2].seenTxs && Reachable(Line(chain), 0, 2)
  {
    var (n1, q1) := Originated(rules, Line(chain), false, 0, tx, 0);
    var (n2, q2) := Delivered(rules, n1, false, 0, q1[0]);
    assert n2[0] == n1[0] && rules.txId(tx) in n2[0].seenTxs;
    assert IsPath(Line(chain), [0, 1, 2], 0, 2);
  }
}
