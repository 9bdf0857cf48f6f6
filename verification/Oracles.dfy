/**
 Cryptography as deterministic functions handed to the model. Nothing is assumed
 about them here: a lemma that needs soundness or collision-freeness says so in its
 own precondition.
 */
module Oracles {
  import opened Types
  import opened Data

  /** The order of the prime subgroup that commitments live in. */
  const GROUP_ORDER: int :=
    0x1000_0000_0000_0000_0000_0000_0000_0000_14DE_F9DE_A2F7_9CD6_5812_631A_5CF5_D3ED

  /** A commitment `mask*G + amount*H`, by its two coordinates modulo the group order. */
  datatype Opening = Opening(mask: nat, amount: nat)

  datatype Crypto = Crypto(
    blockId: Block -> Bytes32,
    txHash: Transaction -> Bytes32,
    /** The proof-of-work hash of a block under an epoch seed. */
    powHash: (Bytes32, Block) -> HashBytes,
    message: Transaction -> Bytes32,
    bundleSighash: Transaction -> Bytes32,
    coinbaseSighash: (U64, Bytes32) -> Bytes32,
    rangeProofOk: (seq<Byte>, seq<Bytes32>) -> bool,
    ringSignatureOk: (Input, Bytes32) -> bool,
    bundleOk: (Bundle, Bytes32) -> bool,
    batchOk: seq<(Bundle, Bytes32)> -> bool,
    spendsEnabled: Bundle -> bool,
    outputsEnabled: Bundle -> bool,
    /** Coordinates of an encoded commitment, and the commitment `1*G + amount*H`. */
    opening: Bytes32 -> Opening,
    coinbaseCommitment: U64 -> Bytes32,
    /** The note-commitment tree: its root, and which leaves are field elements. */
    treeRoot: seq<Bytes32> -> Bytes32,
    noteOk: Bytes32 -> bool,
    /** What the signer of an input knows: its real ring member, and the image of a key. */
    realIndex: Input -> nat,
    keyImageOf: Bytes32 -> Bytes32)
}
