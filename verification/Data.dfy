/**
 The objects that travel between nodes: ring members, transactions, Orchard
 bundles and blocks (noct/core/src/tx.rs, shielded.rs, block.rs). Curve points are
 held by their canonical 32-byte encoding.
 */
module Data {
  import opened Types

  /** An output as the chain identifies it: the pair `[P, C]`. */
  datatype RingMember = RingMember(key: Bytes32, commitment: Bytes32)

  datatype Input = Input(
    ring: seq<RingMember>,
    keyImage: Bytes32,
    pseudoOut: Bytes32,
    clsag: seq<Byte>)

  datatype Output = Output(oneTimeKey: Bytes32, commitment: Bytes32, encryptedAmount: U64)
  {
    function Ref(): RingMember {
      RingMember(oneTimeKey, commitment)
    }
  }

  datatype Action = Action(
    cvNet: Bytes32,
    nullifier: Bytes32,
    rk: Bytes32,
    cmx: Bytes32,
    epk: Bytes32,
    encCiphertext: seq<Byte>,
    outCiphertext: seq<Byte>,
    spendAuth: seq<Byte>)

  datatype Bundle = Bundle(
    actions: seq<Action>,
    flags: Byte,
    valueBalance: I64,
    anchor: Bytes32,
    proof: seq<Byte>,
    binding: seq<Byte>)
  {
    /** The movement as the ring pool sees it; `i64::MIN` has no negation. */
    function Cross(): Option<I64> {
      if valueBalance == I64_MIN then None else Some(-valueBalance)
    }

    function Nullifiers(): (ns: seq<Bytes32>)
      ensures |ns| == |actions|
    {
      seq(|actions|, i requires 0 <= i < |actions| => actions[i].nullifier)
    }

    function Commitments(): (cs: seq<Bytes32>)
      ensures |cs| == |actions|
    {
      seq(|actions|, i requires 0 <= i < |actions| => actions[i].cmx)
    }
  }

  const TX_VERSION: Byte := 1
  const TX_VERSION_SHIELDED: Byte := 2

  datatype Transaction = Transaction(
    version: Byte,
    txPublic: Bytes32,
    additionalTxPublic: seq<Bytes32>,
    fee: U64,
    inputs: seq<Input>,
    outputs: seq<Output>,
    rangeProof: Option<seq<Byte>>,
    cross: I64,
    shielded: Option<Bundle>)
  {
    function KeyImages(): (images: seq<Bytes32>)
      ensures |images| == |inputs|
    {
      seq(|inputs|, i requires 0 <= i < |inputs| => inputs[i].keyImage)
    }

    function OutputRefs(): (refs: seq<RingMember>)
      ensures |refs| == |outputs|
    {
      seq(|outputs|, i requires 0 <= i < |outputs| => outputs[i].Ref())
    }

    function OutputCommitments(): (cs: seq<Bytes32>)
      ensures |cs| == |outputs|
    {
      seq(|outputs|, i requires 0 <= i < |outputs| => outputs[i].commitment)
    }

    function PseudoOuts(): (cs: seq<Bytes32>)
      ensures |cs| == |inputs|
    {
      seq(|inputs|, i requires 0 <= i < |inputs| => inputs[i].pseudoOut)
    }
  }

  datatype CoinbaseOutput = CoinbaseOutput(oneTimeKey: Bytes32, amount: U64, commitment: Bytes32)
  {
    function Ref(): RingMember {
      RingMember(oneTimeKey, commitment)
    }
  }

  datatype Coinbase = Coinbase(
    height: U64,
    txPublic: Bytes32,
    outputs: seq<CoinbaseOutput>,
    shielded: Option<Bundle>)
  {
    function OutputRefs(): (refs: seq<RingMember>)
      ensures |refs| == |outputs|
    {
      seq(|outputs|, i requires 0 <= i < |outputs| => outputs[i].Ref())
    }
  }

  datatype BlockHeader = BlockHeader(
    majorVersion: Byte,
    minorVersion: Byte,
    timestamp: U64,
    prevId: Bytes32,
    nonce: U32)

  datatype Block = Block(header: BlockHeader, coinbase: Coinbase, txHashes: seq<Bytes32>)

  /** Inputs a transaction may declare on the wire, and outputs a range proof can cover. */
  const MAX_INPUTS: nat := 256
  const MAX_COMMITMENTS: nat := 16

  /** How a transaction travels: along one link, or to every peer. */
  datatype Phase = Stem | Fluff

  /** A block as the chain keeps it, with the transactions it carried. */
  datatype StoredBlock = StoredBlock(block: Block, txs: seq<Transaction>)
}
