/**
 What the comparison of block ids inside `try_reorg` rests on. The ids of this chain are
 hashes of the hashing blob, and the hash list names transactions by their bytes: so two
 well-formed blocks with their own bodies share an id only if they are equal, or the hash
 function collides on bytes of theirs (noct/core/src/block.rs, noct/core/src/chain.rs).
 */
module BlockIdentity {
  import opened Types
  import opened Data
  import opened Oracles
  import opened Ledgers
  import opened Replay
  import opened Reorg
  import opened Consensus
  import opened SharedPrefix
  import opened Merkle
  import opened Wire
  import opened WellFormed
  import Encoders

  /** Ids and transaction hashes are what the program computes with its hash function. */
  ghost predicate HashesWith(o: Crypto, h: Hash) {
    && (forall b :: o.blockId(b) == BlockId(h, b))
    && (forall tx :: o.txHash(tx) == h(Encoders.TxBytes(tx)))
  }

  predicate StoredWellFormed(c: Codec, b: StoredBlock) {
    BlockWellFormed(c, b.block) && forall i :: 0 <= i < |b.txs| ==> TxWellFormed(c, b.txs[i])
  }

  predicate AllWellFormed(c: Codec, blocks: seq<StoredBlock>) {
    forall i :: 0 <= i < |blocks| ==> StoredWellFormed(c, blocks[i])
  }

  /** Everything hashed on the way to the ids of these blocks and of their transactions. */
  function AllHashed(h: Hash, blocks: seq<StoredBlock>): set<seq<Byte>> {
    if blocks == [] then {}
    else BlockHashed(h, blocks[0].block) + TxsHashed(blocks[0].txs) + AllHashed(h, blocks[1..])
  }

  lemma {:induction false} HashedWithin(h: Hash, blocks: seq<StoredBlock>, i: nat)
    requires i < |blocks|
    ensures BlockHashed(h, blocks[i].block) + TxsHashed(blocks[i].txs) <= AllHashed(h, blocks)
  {
    if i > 0 {
      HashedWithin(h, blocks[1..], i - 1);
    }
  }

  lemma {:induction false} MatchedHashes(o: Crypto, h: Hash, hashes: seq<Bytes32>, txs: seq<Transaction>)
    requires HashesWith(o, h) && HashesMatch(o, hashes, txs)
    ensures HashesOf(h, hashes, txs)
    decreases |txs|
  {
    if txs != [] {
      MatchedHashes(o, h, hashes[1..], txs[1..]);
      forall i | 0 <= i < |txs|
        ensures hashes[i] == h(Encoders.TxBytes(txs[i]))
      {
        if i > 0 {
          assert hashes[i] == hashes[1..][i - 1] && txs[i] == txs[1..][i - 1];
        }
      }
    }
  }

  /** Two blocks with their own bodies and one id. */
  lemma {:induction false} SameIdSameBlock(o: Crypto, c: Codec, h: Hash, a: StoredBlock, b: StoredBlock)
    requires HashesWith(o, h) && SelfDelimiting(c) && StoredWellFormed(c, a) && StoredWellFormed(c, b)
    requires HashesMatch(o, a.block.txHashes, a.txs) && HashesMatch(o, b.block.txHashes, b.txs)
    requires o.blockId(a.block) == o.blockId(b.block)
    ensures a == b || Collision(h, BlockHashed(h, a.block) + BlockHashed(h, b.block) + TxsHashed(a.txs)
              + TxsHashed(b.txs))
  {
    MatchedHashes(o, h, a.block.txHashes, a.txs);
    MatchedHashes(o, h, b.block.txHashes, b.txs);
    BlockIdBindsContents(c, h, a, b);
  }

  /** Among well-formed blocks equal ids mean equal blocks, unless the hash function collides. */
  lemma {:induction false} IdsTellBlocksApart(
    o: Crypto, c: Codec, h: Hash, xs: seq<StoredBlock>, ys: seq<StoredBlock>)
    requires HashesWith(o, h) && SelfDelimiting(c) && AllWellFormed(c, xs) && AllWellFormed(c, ys)
    ensures NoCollisions(ConsensusRules(o), xs, ys) || Collision(h, AllHashed(h, xs) + AllHashed(h, ys))
  {
    var rules, hashed := ConsensusRules(o), AllHashed(h, xs) + AllHashed(h, ys);
    forall i, j | 0 <= i < |xs| && 0 <= j < |ys| && Confusable(rules, xs[i], ys[j])
      ensures xs[i] == ys[j] || Collision(h, hashed)
    {
      var a, b := xs[i], ys[j];
      SameIdSameBlock(o, c, h, a, b);
      if a != b {
        HashedWithin(h, xs, i);
        HashedWithin(h, ys, j);
        CollisionGrows(h, BlockHashed(h, a.block) + BlockHashed(h, b.block) + TxsHashed(a.txs) + TxsHashed(b.txs),
                       hashed);
      }
    }
  }

  /**
   Skipping shared blocks refines the naive reorg on this chain's own ids: between
   well-formed blocks, the comparison of ids can mislead it only by a hash collision that
   the chain and the branch exhibit.
   */
  lemma {:induction false} SkippingRefinesNaiveOnIds(
    o: Crypto, c: Codec, h: Hash, clock: Clock, tick: nat, start: Ledger, s: Ledger, branch: seq<StoredBlock>,
    final: Ledger)
    requires HashesWith(o, h) && SelfDelimiting(c) && AllWellFormed(c, s.blocks) && AllWellFormed(c, branch)
    requires Genuine(ConsensusRules(o), start, s)
    requires branch != [] && 1 <= branch[0].block.coinbase.height <= |s.blocks|
    requires InTimeFrom(clock, tick, branch)
    ensures Collision(h, AllHashed(h, s.blocks) + AllHashed(h, branch)) ||
            (NaiveWins(ConsensusRules(o), clock, tick, s, branch, final) <==>
             var out := TryReorg(ConsensusRules(o), clock, tick, s, branch);
             out.result.Switched? && out.state == final && Contiguous(branch) &&
             BodiesFit(ConsensusRules(o), branch[..SharedCount(ConsensusRules(o), s, branch)]))
  {
    ConsensusIsLawful(o);
    IdsTellBlocksApart(o, c, h, s.blocks, branch);
    if NoCollisions(ConsensusRules(o), s.blocks, branch) {
      SkippingRefinesNaive(ConsensusRules(o), clock, tick, start, s, branch, final);
    }
  }
}
