/**
 The encoders: what the transaction, coinbase, header and bundle types write for
 hashing (tx.rs, block.rs, shielded.rs in noct/core/src), what the wire module writes,
 and that the two agree byte for byte.
 */
module Encoders {
  import opened Types
  import opened Data
  import opened LittleEndian
  import opened Formats
  import opened Wire

  // --- the bytes of each object --------------------------------------------

  function MemberBytes(m: RingMember): seq<Byte> {
    ArrayOf(m.key) + ArrayOf(m.commitment)
  }

  /** A 4-byte count, then the items. */
  function VecBytes<T>(w: T -> seq<Byte>, xs: seq<T>): seq<Byte> {
    ToLe(4, |xs|) + Concat(w, xs)
  }

  function InputBytes(x: Input): seq<Byte> {
    VecBytes(MemberBytes, x.ring) + (ArrayOf(x.keyImage) + (ArrayOf(x.pseudoOut) + x.clsag))
  }

  function OutputBytes(x: Output): seq<Byte> {
    ArrayOf(x.oneTimeKey) + (ArrayOf(x.commitment) + ToLe(8, x.encryptedAmount))
  }

  function ActionBytes(a: Action): seq<Byte> {
    ArrayOf(a.cvNet) + (ArrayOf(a.nullifier) + (ArrayOf(a.rk) + (ArrayOf(a.cmx) + (ArrayOf(a.epk)
    + (a.encCiphertext + (a.outCiphertext + a.spendAuth))))))
  }

  function BundleTailBytes(b: Bundle): seq<Byte> {
    [b.flags] + (ToLe(8, UnsignedOf(b.valueBalance)) + (ArrayOf(b.anchor) + (b.proof + b.binding)))
  }

  function BundleBytes(b: Bundle): seq<Byte> {
    ToLe(2, |b.actions|) + (Concat(ActionBytes, b.actions) + BundleTailBytes(b))
  }

  /** A presence tag, and a length before the bundle itself. */
  function EmbeddedBytes(b: Option<Bundle>): seq<Byte> {
    match b
    case None => [0]
    case Some(bundle) => [1] + (ToLe(4, |BundleBytes(bundle)|) + BundleBytes(bundle))
  }

  function ProofBytes(p: Option<seq<Byte>>): seq<Byte> {
    if p.Some? then p.value else []
  }

  function CrossingBytes(tx: Transaction): seq<Byte> {
    if tx.version >= TX_VERSION_SHIELDED then ToLe(8, UnsignedOf(tx.cross)) + EmbeddedBytes(tx.shielded) else []
  }

  function TxHeadBytes(tx: Transaction): seq<Byte> {
    [tx.version] + (ArrayOf(tx.txPublic) + (VecBytes(ArrayOf, tx.additionalTxPublic) + (ToLe(8, tx.fee)
    + (VecBytes(InputBytes, tx.inputs) + VecBytes(OutputBytes, tx.outputs)))))
  }

  function TxBytes(tx: Transaction): seq<Byte> {
    TxHeadBytes(tx) + (ProofBytes(tx.rangeProof) + CrossingBytes(tx))
  }

  function CoinbaseOutputBytes(x: CoinbaseOutput): seq<Byte> {
    ArrayOf(x.oneTimeKey) + (ToLe(8, x.amount) + ArrayOf(x.commitment))
  }

  function CoinbaseBytes(x: Coinbase): seq<Byte> {
    (ToLe(8, x.height) + (ArrayOf(x.txPublic) + VecBytes(CoinbaseOutputBytes, x.outputs)))
    + if x.outputs == [] then EmbeddedBytes(x.shielded) else []
  }

  function HeaderBytes(h: BlockHeader): seq<Byte> {
    [h.majorVersion] + ([h.minorVersion] + (ToLe(8, h.timestamp) + (ArrayOf(h.prevId) + ToLe(4, h.nonce))))
  }

  function BlockBytes(b: Block): seq<Byte> {
    HeaderBytes(b.header) + (CoinbaseBytes(b.coinbase) + VecBytes(ArrayOf, b.txHashes))
  }

  // --- the hashing encoders, loop by loop ----------------------------------

  /** Appending `part` moves it from what is still to come into what is written. */
  lemma Appended(out: seq<Byte>, part: seq<Byte>, rest: seq<Byte>)
    ensures (out + part) + rest == out + (part + rest)
  {
  }

  lemma ItemAppended(out: seq<Byte>, count: seq<Byte>, items: seq<Byte>, item: seq<Byte>)
    ensures (out + (count + items)) + item == out + (count + (items + item))
  {
    Appended(out, count + items, item);
    Appended(count, items, item);
  }

  method WriteAction(out: seq<Byte>, a: Action) returns (b: seq<Byte>)
    ensures b == out + ActionBytes(a)
  {
    b := out + ArrayOf(a.cvNet);
    b := b + ArrayOf(a.nullifier);
    b := b + ArrayOf(a.rk);
    b := b + ArrayOf(a.cmx);
    b := b + ArrayOf(a.epk);
    ghost var half := ArrayOf(a.cvNet) + (ArrayOf(a.nullifier) + (ArrayOf(a.rk) + (ArrayOf(a.cmx) + ArrayOf(a.epk))));
    assert b == out + half;
    b := b + a.encCiphertext;
    b := b + a.outCiphertext;
    b := b + a.spendAuth;
    ghost var rest := a.encCiphertext + (a.outCiphertext + a.spendAuth);
    assert b == (out + half) + rest;
    assert ActionBytes(a) == half + rest;
  }

  method WriteBundleTail(out: seq<Byte>, bundle: Bundle) returns (b: seq<Byte>)
    ensures b == out + BundleTailBytes(bundle)
  {
    b := out + [bundle.flags];
    b := b + ToLe(8, UnsignedOf(bundle.valueBalance));
    b := b + ArrayOf(bundle.anchor);
    b := b + bundle.proof;
    b := b + bundle.binding;
  }

  method BundleToBytes(bundle: Bundle) returns (out: seq<Byte>)
    ensures out == BundleBytes(bundle)
  {
    out := ToLe(2, |bundle.actions|);
    ghost var count := out;
    for i := 0 to |bundle.actions|
      invariant out == count + Concat(ActionBytes, bundle.actions[..i])
    {
      ConcatSnoc(ActionBytes, bundle.actions, i);
      Appended(count, Concat(ActionBytes, bundle.actions[..i]), ActionBytes(bundle.actions[i]));
      out := WriteAction(out, bundle.actions[i]);
    }
    assert bundle.actions[..|bundle.actions|] == bundle.actions;
    Appended(count, Concat(ActionBytes, bundle.actions), BundleTailBytes(bundle));
    out := WriteBundleTail(out, bundle);
  }

  /** The tag, length and bytes of a bundle inside something larger. */
  method WriteEmbedded(out: seq<Byte>, bundle: Option<Bundle>) returns (b: seq<Byte>)
    ensures b == out + EmbeddedBytes(bundle)
  {
    match bundle
    case None =>
      b := out + [0];
    case Some(present) =>
      b := out + [1];
      var encoded := BundleToBytes(present);
      b := b + ToLe(4, |encoded|);
      b := b + encoded;
  }

  method WriteInput(out: seq<Byte>, input: Input) returns (b: seq<Byte>)
    ensures b == out + InputBytes(input)
  {
    b := out + ToLe(4, |input.ring|);
    for i := 0 to |input.ring|
      invariant b == out + (ToLe(4, |input.ring|) + Concat(MemberBytes, input.ring[..i]))
    {
      ConcatSnoc(MemberBytes, input.ring, i);
      var was := b;
      b := b + ArrayOf(input.ring[i].key);
      b := b + ArrayOf(input.ring[i].commitment);
      assert b == was + MemberBytes(input.ring[i]);
    }
    assert input.ring[..|input.ring|] == input.ring;
    ghost var ringWritten := b;
    b := b + ArrayOf(input.keyImage);
    b := b + ArrayOf(input.pseudoOut);
    b := b + input.clsag;
    ghost var rest := ArrayOf(input.keyImage) + (ArrayOf(input.pseudoOut) + input.clsag);
    assert b == ringWritten + rest;
    Appended(out, VecBytes(MemberBytes, input.ring), rest);
  }

  method WriteOutput(out: seq<Byte>, o: Output) returns (b: seq<Byte>)
    ensures b == out + OutputBytes(o)
  {
    b := out + ArrayOf(o.oneTimeKey);
    b := b + ArrayOf(o.commitment);
    b := b + ToLe(8, o.encryptedAmount);
  }

  method WriteInputs(out: seq<Byte>, inputs: seq<Input>) returns (b: seq<Byte>)
    ensures b == out + VecBytes(InputBytes, inputs)
  {
    b := out + ToLe(4, |inputs|);
    for i := 0 to |inputs|
      invariant b == out + (ToLe(4, |inputs|) + Concat(InputBytes, inputs[..i]))
    {
      ConcatSnoc(InputBytes, inputs, i);
      ItemAppended(out, ToLe(4, |inputs|), Concat(InputBytes, inputs[..i]), InputBytes(inputs[i]));
      b := WriteInput(b, inputs[i]);
    }
    assert inputs[..|inputs|] == inputs;
  }

  method WriteOutputs(out: seq<Byte>, outputs: seq<Output>) returns (b: seq<Byte>)
    ensures b == out + VecBytes(OutputBytes, outputs)
  {
    b := out + ToLe(4, |outputs|);
    for i := 0 to |outputs|
      invariant b == out + (ToLe(4, |outputs|) + Concat(OutputBytes, outputs[..i]))
    {
      ConcatSnoc(OutputBytes, outputs, i);
      ItemAppended(out, ToLe(4, |outputs|), Concat(OutputBytes, outputs[..i]), OutputBytes(outputs[i]));
      b := WriteOutput(b, outputs[i]);
    }
    assert outputs[..|outputs|] == outputs;
  }

  method WriteKeys(out: seq<Byte>, keys: seq<Bytes32>) returns (b: seq<Byte>)
    ensures b == out + VecBytes(ArrayOf, keys)
  {
    b := out + ToLe(4, |keys|);
    for i := 0 to |keys|
      invariant b == out + (ToLe(4, |keys|) + Concat(ArrayOf, keys[..i]))
    {
      ConcatSnoc(ArrayOf, keys, i);
      ItemAppended(out, ToLe(4, |keys|), Concat(ArrayOf, keys[..i]), ArrayOf(keys[i]));
      b := b + ArrayOf(keys[i]);
    }
    assert keys[..|keys|] == keys;
  }

  method WriteHead(tx: Transaction) returns (b: seq<Byte>)
    ensures b == TxHeadBytes(tx)
  {
    ghost var outputsOn := VecBytes(OutputBytes, tx.outputs);
    ghost var inputsOn := VecBytes(InputBytes, tx.inputs) + outputsOn;
    ghost var feeOn := ToLe(8, tx.fee) + inputsOn;
    ghost var keysOn := VecBytes(ArrayOf, tx.additionalTxPublic) + feeOn;
    b := [tx.version];
    Appended(b, ArrayOf(tx.txPublic), keysOn);
    b := b + ArrayOf(tx.txPublic);
    Appended(b, VecBytes(ArrayOf, tx.additionalTxPublic), feeOn);
    b := WriteKeys(b, tx.additionalTxPublic);
    Appended(b, ToLe(8, tx.fee), inputsOn);
    b := b + ToLe(8, tx.fee);
    Appended(b, VecBytes(InputBytes, tx.inputs), outputsOn);
    b := WriteInputs(b, tx.inputs);
    b := WriteOutputs(b, tx.outputs);
  }

  /** `Transaction::to_bytes`. */
  method ToBytes(tx: Transaction) returns (b: seq<Byte>)
    ensures b == TxBytes(tx)
  {
    b := WriteHead(tx);
    Appended(b, ProofBytes(tx.rangeProof), CrossingBytes(tx));
    if tx.rangeProof.Some? {
      b := b + tx.rangeProof.value;
    }
    if tx.version >= TX_VERSION_SHIELDED {
      Appended(b, ToLe(8, UnsignedOf(tx.cross)), EmbeddedBytes(tx.shielded));
      b := b + ToLe(8, UnsignedOf(tx.cross));
      b := WriteEmbedded(b, tx.shielded);
    }
  }

  method WriteCoinbaseOutput(out: seq<Byte>, o: CoinbaseOutput) returns (b: seq<Byte>)
    ensures b == out + CoinbaseOutputBytes(o)
  {
    b := out + ArrayOf(o.oneTimeKey);
    b := b + ToLe(8, o.amount);
    b := b + ArrayOf(o.commitment);
  }

  /** `Coinbase::to_bytes`. */
  method CoinbaseToBytes(x: Coinbase) returns (b: seq<Byte>)
    ensures b == CoinbaseBytes(x)
  {
    b := ToLe(8, x.height);
    b := b + ArrayOf(x.txPublic);
    ghost var head := b;
    b := b + ToLe(4, |x.outputs|);
    for i := 0 to |x.outputs|
      invariant b == head + (ToLe(4, |x.outputs|) + Concat(CoinbaseOutputBytes, x.outputs[..i]))
    {
      ConcatSnoc(CoinbaseOutputBytes, x.outputs, i);
      ItemAppended(head, ToLe(4, |x.outputs|), Concat(CoinbaseOutputBytes, x.outputs[..i]),
        CoinbaseOutputBytes(x.outputs[i]));
      b := WriteCoinbaseOutput(b, x.outputs[i]);
    }
    assert x.outputs[..|x.outputs|] == x.outputs;
    Appended(ToLe(8, x.height), ArrayOf(x.txPublic), VecBytes(CoinbaseOutputBytes, x.outputs));
    if x.outputs == [] {
      b := WriteEmbedded(b, x.shielded);
    }
  }

  method HeaderToBytes(h: BlockHeader) returns (b: seq<Byte>)
    ensures b == HeaderBytes(h)
  {
    b := [h.majorVersion];
    b := b + [h.minorVersion];
    b := b + ToLe(8, h.timestamp);
    b := b + ArrayOf(h.prevId);
    b := b + ToLe(4, h.nonce);
  }

  // --- the wire encoder ----------------------------------------------------

  /** A writer as the wire module passes it around: the buffer so far, with one more item at its end. */
  type Writer<!T> = (seq<Byte>, T) -> seq<Byte>

  function PutItems<T>(out: seq<Byte>, items: seq<T>, put: Writer<T>): seq<Byte> {
    if items == [] then out
    else put(PutItems(out, items[..|items| - 1], put), items[|items| - 1])
  }

  function PutVec<T>(out: seq<Byte>, items: seq<T>, put: Writer<T>): seq<Byte> {
    PutItems(out + ToLe(4, |items|), items, put)
  }

  /** `write_vec`: a 4-byte count, then the items one after another. */
  method WriteVec<T>(out: seq<Byte>, items: seq<T>, put: Writer<T>) returns (result: seq<Byte>)
    ensures result == PutVec(out, items, put)
  {
    result := out + ToLe(4, |items|);
    for i := 0 to |items|
      invariant result == PutItems(out + ToLe(4, |items|), items[..i], put)
    {
      assert items[..i + 1][..i] == items[..i];
      result := put(result, items[i]);
    }
    assert items[..|items|] == items;
  }

  /** The writer appends what `w` says, whatever the buffer holds. */
  ghost predicate Appends<T(!new)>(put: Writer<T>, w: T -> seq<Byte>) {
    forall out: seq<Byte>, x: T :: put(out, x) == out + w(x)
  }

  lemma {:induction false} PutItemsAppends<T(!new)>(
    out: seq<Byte>, items: seq<T>, put: Writer<T>, w: T -> seq<Byte>)
    requires Appends(put, w)
    ensures PutItems(out, items, put) == out + Concat(w, items)
  {
    if items == [] {
      assert out + [] == out;
    } else {
      var last := |items| - 1;
      PutItemsAppends(out, items[..last], put, w);
      ConcatSnoc(w, items, last);
      assert items[..last + 1] == items;
      Appended(out, Concat(w, items[..last]), w(items[last]));
    }
  }

  lemma PutVecAppends<T(!new)>(out: seq<Byte>, items: seq<T>, put: Writer<T>, w: T -> seq<Byte>)
    requires Appends(put, w)
    ensures PutVec(out, items, put) == out + VecBytes(w, items)
  {
    PutItemsAppends(out + ToLe(4, |items|), items, put, w);
    Appended(out, ToLe(4, |items|), Concat(w, items));
  }

  function PutKey(out: seq<Byte>, key: Bytes32): seq<Byte> {
    out + ArrayOf(key)
  }

  /** `write_ring_member`. */
  function PutRingMember(out: seq<Byte>, m: RingMember): seq<Byte> {
    out + ArrayOf(m.key) + ArrayOf(m.commitment)
  }

  /** `write_input`. */
  function PutInput(out: seq<Byte>, input: Input): seq<Byte> {
    PutVec(out, input.ring, PutRingMember) + ArrayOf(input.keyImage) + ArrayOf(input.pseudoOut) + input.clsag
  }

  /** `write_output`. */
  function PutOutput(out: seq<Byte>, o: Output): seq<Byte> {
    out + ArrayOf(o.oneTimeKey) + ArrayOf(o.commitment) + ToLe(8, o.encryptedAmount)
  }

  /** Three parts in a row. */
  lemma AppendedThrice(out: seq<Byte>, x: seq<Byte>, y: seq<Byte>, z: seq<Byte>)
    ensures out + x + y + z == out + (x + (y + z))
  {
    Appended(out, x, y + z);
    Appended(out + x, y, z);
  }

  /** The wire's ring member writer appends what the transaction's own encoder writes for the member. */
  lemma PutRingMemberAppends()
    ensures Appends(PutRingMember, MemberBytes)
  {
    forall out: seq<Byte>, m: RingMember
      ensures PutRingMember(out, m) == out + MemberBytes(m)
    {
      Appended(out, ArrayOf(m.key), ArrayOf(m.commitment));
    }
  }

  /** The wire's input writer, ring included, appends what the transaction's own encoder writes. */
  lemma PutInputAppends()
    ensures Appends(PutInput, InputBytes)
  {
    PutRingMemberAppends();
    forall out: seq<Byte>, x: Input
      ensures PutInput(out, x) == out + InputBytes(x)
    {
      PutVecAppends(out, x.ring, PutRingMember, MemberBytes);
      var ring := VecBytes(MemberBytes, x.ring);
      AppendedThrice(out + ring, ArrayOf(x.keyImage), ArrayOf(x.pseudoOut), x.clsag);
      Appended(out, ring, ArrayOf(x.keyImage) + (ArrayOf(x.pseudoOut) + x.clsag));
    }
  }

  /** The wire's output writer appends what the transaction's own encoder writes. */
  lemma PutOutputAppends()
    ensures Appends(PutOutput, OutputBytes)
  {
    forall out: seq<Byte>, o: Output
      ensures PutOutput(out, o) == out + OutputBytes(o)
    {
      AppendedThrice(out, ArrayOf(o.oneTimeKey), ArrayOf(o.commitment), ToLe(8, o.encryptedAmount));
    }
  }

  /** The first half of `write_transaction_into`: keys, fee, inputs and outputs. */
  function PutHead(out: seq<Byte>, tx: Transaction): seq<Byte> {
    var keys := PutVec(out + [tx.version] + ArrayOf(tx.txPublic), tx.additionalTxPublic, PutKey);
    PutVec(PutVec(keys + ToLe(8, tx.fee), tx.inputs, PutInput), tx.outputs, PutOutput)
  }

  /** The presence tag, and the bundle behind its length. */
  function PutEmbedded(out: seq<Byte>, bundle: Option<Bundle>): seq<Byte> {
    match bundle
    case None => out + [0]
    case Some(b) => out + [1] + ToLe(4, |BundleBytes(b)|) + BundleBytes(b)
  }

  /** The second half of `write_transaction_into`: the proof, and from version 2 crossing and bundle. */
  function PutTail(out: seq<Byte>, tx: Transaction): seq<Byte> {
    var proven := if tx.rangeProof.Some? then out + tx.rangeProof.value else out;
    if tx.version >= TX_VERSION_SHIELDED then
      PutEmbedded(proven + ToLe(8, UnsignedOf(tx.cross)), tx.shielded)
    else
      proven
  }

  function PutTransaction(out: seq<Byte>, tx: Transaction): seq<Byte> {
    PutTail(PutHead(out, tx), tx)
  }

  lemma PutTransfersAppend(out: seq<Byte>, tx: Transaction)
    ensures PutVec(PutVec(out, tx.inputs, PutInput), tx.outputs, PutOutput)
            == out + (VecBytes(InputBytes, tx.inputs) + VecBytes(OutputBytes, tx.outputs))
  {
    PutInputAppends();
    PutVecAppends(out, tx.inputs, PutInput, InputBytes);
    PutOutputAppends();
    PutVecAppends(out + VecBytes(InputBytes, tx.inputs), tx.outputs, PutOutput, OutputBytes);
    Appended(out, VecBytes(InputBytes, tx.inputs), VecBytes(OutputBytes, tx.outputs));
  }

  lemma PutHeadAppends(out: seq<Byte>, tx: Transaction)
    ensures PutHead(out, tx) == out + TxHeadBytes(tx)
  {
    var outputsOn := VecBytes(OutputBytes, tx.outputs);
    var inputsOn := VecBytes(InputBytes, tx.inputs) + outputsOn;
    var feeOn := ToLe(8, tx.fee) + inputsOn;
    var keysOn := VecBytes(ArrayOf, tx.additionalTxPublic) + feeOn;
    var start := out + [tx.version] + ArrayOf(tx.txPublic);
    PutVecAppends(start, tx.additionalTxPublic, PutKey, ArrayOf);
    var keys := start + VecBytes(ArrayOf, tx.additionalTxPublic);
    PutTransfersAppend(keys + ToLe(8, tx.fee), tx);
    Appended(keys, ToLe(8, tx.fee), inputsOn);
    Appended(start, VecBytes(ArrayOf, tx.additionalTxPublic), feeOn);
    Appended(out + [tx.version], ArrayOf(tx.txPublic), keysOn);
    Appended(out, [tx.version], ArrayOf(tx.txPublic) + keysOn);
  }

  lemma PutTailAppends(out: seq<Byte>, tx: Transaction)
    ensures PutTail(out, tx) == out + (ProofBytes(tx.rangeProof) + CrossingBytes(tx))
  {
    var proof := ProofBytes(tx.rangeProof);
    var proven := if tx.rangeProof.Some? then out + tx.rangeProof.value else out;
    assert proven == out + proof;
    Appended(out, proof, CrossingBytes(tx));
    if tx.version >= TX_VERSION_SHIELDED {
      var crossed := proven + ToLe(8, UnsignedOf(tx.cross));
      if tx.shielded.Some? {
        var bytes := BundleBytes(tx.shielded.value);
        AppendedThrice(crossed, [1], ToLe(4, |bytes|), bytes);
      }
      Appended(proven, ToLe(8, UnsignedOf(tx.cross)), EmbeddedBytes(tx.shielded));
    } else {
      assert (out + proof) + [] == out + proof;
    }
  }

  /** What the wire module appends for a transaction is what the transaction's own encoder writes. */
  lemma PutTransactionAppends()
    ensures Appends(PutTransaction, TxBytes)
  {
    forall out: seq<Byte>, tx: Transaction
      ensures PutTransaction(out, tx) == out + TxBytes(tx)
    {
      PutHeadAppends(out, tx);
      PutTailAppends(out + TxHeadBytes(tx), tx);
      Appended(out, TxHeadBytes(tx), ProofBytes(tx.rangeProof) + CrossingBytes(tx));
    }
  }

  /** `write_transaction_into`. */
  method WriteTransactionInto(out: seq<Byte>, tx: Transaction) returns (result: seq<Byte>)
    ensures result == PutTransaction(out, tx)
    ensures result == out + TxBytes(tx)
  {
    PutTransactionAppends();
    assert PutTransaction(out, tx) == out + TxBytes(tx);
    result := out + [tx.version] + ArrayOf(tx.txPublic);
    result := WriteVec(result, tx.additionalTxPublic, PutKey);
    result := result + ToLe(8, tx.fee);
    result := WriteVec(result, tx.inputs, PutInput);
    result := WriteVec(result, tx.outputs, PutOutput);
    match tx.rangeProof {
      case None =>
      case Some(proof) => result := result + proof;
    }
    if tx.version >= TX_VERSION_SHIELDED {
      result := result + ToLe(8, UnsignedOf(tx.cross));
      match tx.shielded {
        case None => result := result + [0];
        case Some(bundle) =>
          result := result + [1];
          var encoded := BundleToBytes(bundle);
          result := result + ToLe(4, |encoded|) + encoded;
      }
    }
  }

  method EncodeTransaction(tx: Transaction) returns (out: seq<Byte>)
    ensures out == TxBytes(tx)
  {
    out := WriteTransactionInto([], tx);
    assert [] + TxBytes(tx) == TxBytes(tx);
  }

  method EncodeBlock(block: Block) returns (out: seq<Byte>)
    ensures out == BlockBytes(block)
  {
    out := HeaderToBytes(block.header);
    var coinbase := CoinbaseToBytes(block.coinbase);
    Appended(out, coinbase, VecBytes(ArrayOf, block.txHashes));
    out := out + coinbase;
    PutVecAppends(out, block.txHashes, PutKey, ArrayOf);
    out := WriteVec(out, block.txHashes, PutKey);
  }

  // --- the formats write these bytes ---------------------------------------

  lemma PairWrites<A, B>(f: Format<A>, g: Format<B>, a: A, b: B)
    ensures Pair(f, g).write((a, b)) == f.write(a) + g.write(b)
  {
  }

  lemma ThenWrites<A, B>(f: Format<A>, g: A -> Format<B>, a: A, b: B)
    ensures Then(f, g).write((a, b)) == f.write(a) + g(a).write(b)
  {
  }

  lemma MappedWrites<A, B>(f: Format<A>, build: A -> B, parts: B -> A, b: B)
    ensures Mapped(f, build, parts).write(b) == f.write(parts(b))
  {
  }

  lemma OneByte(x: Byte)
    ensures ByteF.write(x) == [x]
  {
    assert ToLe(1, x) == [x % 0x100] + ToLe(0, x / 0x100);
  }

  lemma CountedWrites<T>(width: nat, max: nat, f: Format<T>, w: T -> seq<Byte>, xs: seq<T>)
    requires forall i :: 0 <= i < |xs| ==> f.write(xs[i]) == w(xs[i])
    ensures Counted(width, max, f).write(xs) == ToLe(width, |xs|) + Concat(w, xs)
  {
    ConcatSame(f.write, w, xs);
  }

  lemma ActionWritten(c: Codec, a: Action)
    ensures ActionF(c).write(a) == ActionBytes(a)
  {
    var f7 := Pair(Raw(OUT_CIPHERTEXT), Raw(64));
    var f6 := Pair(Raw(ENC_CIPHERTEXT), f7);
    var f5 := Pair(Array32F, f6);
    var f4 := Pair(Array32F, f5);
    var f3 := Pair(Array32F, f4);
    var f2 := Pair(Array32F, f3);
    var p := ActionPartsOf(a);
    PairWrites(Raw(OUT_CIPHERTEXT), Raw(64), a.outCiphertext, a.spendAuth);
    PairWrites(Raw(ENC_CIPHERTEXT), f7, a.encCiphertext, p.1.1.1.1.1.1);
    PairWrites(Array32F, f6, a.epk, p.1.1.1.1.1);
    PairWrites(Array32F, f5, a.cmx, p.1.1.1.1);
    PairWrites(Array32F, f4, a.rk, p.1.1.1);
    PairWrites(Array32F, f3, a.nullifier, p.1.1);
    PairWrites(Array32F, f2, a.cvNet, p.1);
  }

  lemma BundleTailWritten(c: Codec, n: U16, b: Bundle)
    ensures BundleRestF(c, n).write(BundlePartsOf(b).1) == Concat(ActionF(c).write, b.actions) + BundleTailBytes(b)
  {
    var f5 := Pair(Raw(c.bundleProofBytes(n)), Raw(64));
    var f4 := Pair(PointF(c.anchorOk), f5);
    var f3 := Pair(I64F, f4);
    var f2 := Pair(Checked(ByteF, c.flagsOk, BadTag), f3);
    var p := BundlePartsOf(b).1;
    PairWrites(Raw(c.bundleProofBytes(n)), Raw(64), b.proof, b.binding);
    PairWrites(PointF(c.anchorOk), f5, b.anchor, p.1.1.1.1);
    PairWrites(I64F, f4, b.valueBalance, p.1.1.1);
    PairWrites(Checked(ByteF, c.flagsOk, BadTag), f3, b.flags, p.1.1);
    PairWrites(Times(ActionF(c), n), f2, b.actions, p.1);
    OneByte(b.flags);
  }

  lemma TwoBytes(x: nat, q: nat, high: Byte, low: Byte)
    requires x == 0x1_0000 * q + 0x100 * high + low
    ensures ToLe(2, x) == [low] + ([high] + [])
  {
    assert x / 0x100 == 0x100 * q + high && x % 0x100 == low;
    assert ToLe(1, x / 0x100) == [high] + ToLe(0, x / 0x100 / 0x100);
  }

  /** Both the program's cast of the count and the format's keep its low 16 bits. */
  lemma CountIsCut(n: nat)
    ensures ToLe(2, AsU16(n)) == ToLe(2, n)
  {
    var cut := AsU16(n);
    TwoBytes(cut, 0, cut / 0x100, cut % 0x100);
    TwoBytes(n, n / 0x1_0000, cut / 0x100, cut % 0x100);
  }

  /** A bundle of any number of actions, even one whose count does not fit its two bytes. */
  lemma BundleWritten(c: Codec, b: Bundle)
    ensures BundleF(c).write(b) == BundleBytes(b)
  {
    forall a: Action
      ensures ActionF(c).write(a) == ActionBytes(a)
    {
      ActionWritten(c, a);
    }
    ConcatSame(ActionF(c).write, ActionBytes, b.actions);
    BundleTailWritten(c, AsU16(|b.actions|), b);
    CountIsCut(|b.actions|);
  }

  lemma OptionWrites<T>(f: Format<T>, x: Option<T>)
    ensures OptionF(f).write(x) == if x.Some? then [1] + f.write(x.value) else [0]
  {
    OneByte(if x.Some? then 1 else 0);
    assert x.None? ==> OptionF(f).write(x) == [0] + [];
  }

  lemma WithinWrites<T>(max: nat, f: Format<T>, error: WireError, x: T)
    ensures var bytes := f.write(x);
            Within(Prefixed(4, max), f, error).write(x) == ToLe(4, |bytes|) + bytes
  {
  }

  lemma {:induction false} EmbeddedWritten(c: Codec, b: Option<Bundle>)
    ensures OptionalBundleF(c).write(b) == EmbeddedBytes(b)
  {
    var max := MaxBundleBytes(c);
    OptionWrites(Within(Prefixed(4, max), BundleF(c), BadProof), b);
    if b.Some? {
      BundleWritten(c, b.value);
      WithinWrites(max, BundleF(c), BadProof, b.value);
    }
  }

  lemma MemberWritten(c: Codec, m: RingMember)
    ensures RingMemberF(c).write(m) == MemberBytes(m)
  {
    MappedWrites(Pair(PointF(c.keyOk), PointF(c.commitmentOk)), BuildMember, MemberParts, m);
    PairWrites(PointF(c.keyOk), PointF(c.commitmentOk), m.key, m.commitment);
  }

  lemma InputRestWritten(c: Codec, x: Input)
    ensures InputRestF(c, x.ring).write(InputParts(x).1) == ArrayOf(x.keyImage) + (ArrayOf(x.pseudoOut) + x.clsag)
  {
    var signature := Blob(32 * (|x.ring| + 2), c.clsagOk);
    PairWrites(PointF(c.commitmentOk), signature, x.pseudoOut, x.clsag);
    PairWrites(PointF(c.imageOk), Pair(PointF(c.commitmentOk), signature), x.keyImage, (x.pseudoOut, x.clsag));
  }

  lemma InputWritten(c: Codec, x: Input)
    ensures InputF(c).write(x) == InputBytes(x)
  {
    forall m: RingMember
      ensures RingMemberF(c).write(m) == MemberBytes(m)
    {
      MemberWritten(c, m);
    }
    CountedWrites(4, MAX_RING_SIZE, RingMemberF(c), MemberBytes, x.ring);
    InputRestWritten(c, x);
    var rest := (ring: seq<RingMember>) => InputRestF(c, ring);
    ThenWrites(RingF(c), rest, x.ring, InputParts(x).1);
    MappedWrites(Then(RingF(c), rest), BuildInput, InputParts, x);
  }

  lemma OutputWritten(c: Codec, x: Output)
    ensures OutputF(c).write(x) == OutputBytes(x)
  {
    PairWrites(PointF(c.commitmentOk), U64F, x.commitment, x.encryptedAmount);
    PairWrites(PointF(c.keyOk), Pair(PointF(c.commitmentOk), U64F), x.oneTimeKey, (x.commitment, x.encryptedAmount));
    MappedWrites(Pair(PointF(c.keyOk), Pair(PointF(c.commitmentOk), U64F)), BuildOutput, OutputParts, x);
  }

  lemma InputsWritten(c: Codec, inputs: seq<Input>)
    ensures Counted(4, MAX_INPUTS, InputF(c)).write(inputs) == VecBytes(InputBytes, inputs)
  {
    forall i | 0 <= i < |inputs|
      ensures InputF(c).write(inputs[i]) == InputBytes(inputs[i])
    {
      InputWritten(c, inputs[i]);
    }
    CountedWrites(4, MAX_INPUTS, InputF(c), InputBytes, inputs);
  }

  lemma OutputsWritten(c: Codec, outputs: seq<Output>)
    ensures Counted(4, MAX_COMMITMENTS, OutputF(c)).write(outputs) == VecBytes(OutputBytes, outputs)
  {
    forall i | 0 <= i < |outputs|
      ensures OutputF(c).write(outputs[i]) == OutputBytes(outputs[i])
    {
      OutputWritten(c, outputs[i]);
    }
    CountedWrites(4, MAX_COMMITMENTS, OutputF(c), OutputBytes, outputs);
  }

  lemma VectorsWritten(c: Codec, tx: Transaction)
    ensures Counted(4, MAX_COMMITMENTS, PointF(c.keyOk)).write(tx.additionalTxPublic)
            == VecBytes(ArrayOf, tx.additionalTxPublic)
    ensures Counted(4, MAX_INPUTS, InputF(c)).write(tx.inputs) == VecBytes(InputBytes, tx.inputs)
    ensures Counted(4, MAX_COMMITMENTS, OutputF(c)).write(tx.outputs) == VecBytes(OutputBytes, tx.outputs)
  {
    CountedWrites(4, MAX_COMMITMENTS, PointF(c.keyOk), ArrayOf, tx.additionalTxPublic);
    InputsWritten(c, tx.inputs);
    OutputsWritten(c, tx.outputs);
  }

  /** Six formats in sequence write one after another. */
  lemma SixWrite<A, B, C, D, E, F>(
    a: Format<A>, b: Format<B>, c: Format<C>, d: Format<D>, e: Format<E>, f: Format<F>,
    x: (A, (B, (C, (D, (E, F))))))
    ensures Pair(a, Pair(b, Pair(c, Pair(d, Pair(e, f))))).write(x)
            == a.write(x.0) + (b.write(x.1.0) + (c.write(x.1.1.0) + (d.write(x.1.1.1.0)
               + (e.write(x.1.1.1.1.0) + f.write(x.1.1.1.1.1)))))
  {
    var ef := Pair(e, f);
    var def := Pair(d, ef);
    var cdef := Pair(c, def);
    PairWrites(e, f, x.1.1.1.1.0, x.1.1.1.1.1);
    PairWrites(d, ef, x.1.1.1.0, x.1.1.1.1);
    PairWrites(c, def, x.1.1.0, x.1.1.1);
    PairWrites(b, cdef, x.1.0, x.1.1);
    PairWrites(a, Pair(b, cdef), x.0, x.1);
  }

  lemma TxHeadWritten(c: Codec, tx: Transaction)
    ensures TxHeadF(c).write(TxParts(tx).0) == TxHeadBytes(tx)
  {
    VectorsWritten(c, tx);
    OneByte(tx.version);
    SixWrite(ByteF, PointF(c.keyOk), Counted(4, MAX_COMMITMENTS, PointF(c.keyOk)), U64F,
      Counted(4, MAX_INPUTS, InputF(c)), Counted(4, MAX_COMMITMENTS, OutputF(c)), TxParts(tx).0);
  }

  lemma VersionedWrites(f: Format<(I64, Option<Bundle>)>, version: Byte, x: (I64, Option<Bundle>))
    ensures Versioned(f, version).write(x) == if version >= TX_VERSION_SHIELDED then f.write(x) else []
  {
  }

  lemma CrossingWritten(c: Codec, tx: Transaction)
    ensures VersionTailF(c, tx.version).write((tx.cross, tx.shielded)) == CrossingBytes(tx)
  {
    EmbeddedWritten(c, tx.shielded);
    PairWrites(I64F, OptionalBundleF(c), tx.cross, tx.shielded);
    VersionedWrites(Pair(I64F, OptionalBundleF(c)), tx.version, (tx.cross, tx.shielded));
  }

  lemma TxTailWritten(c: Codec, tx: Transaction)
    ensures TxTailF(c, TxParts(tx).0).write(TxParts(tx).1) == ProofBytes(tx.rangeProof) + CrossingBytes(tx)
  {
    CrossingWritten(c, tx);
    assert ProofF(c, tx.outputs).write(tx.rangeProof) == ProofBytes(tx.rangeProof);
    PairWrites(ProofF(c, tx.outputs), VersionTailF(c, tx.version), tx.rangeProof, (tx.cross, tx.shielded));
  }

  /**
   The wire format and `Transaction::to_bytes` agree byte for byte, on every
   transaction, well-formed or not.
   */
  lemma {:induction false} TransactionWritten(c: Codec, tx: Transaction)
    ensures TransactionF(c).write(tx) == TxBytes(tx)
  {
    TxHeadWritten(c, tx);
    TxTailWritten(c, tx);
    var tail := (head: TxHead) => TxTailF(c, head);
    ThenWrites(TxHeadF(c), tail, TxParts(tx).0, TxParts(tx).1);
    MappedWrites(Then(TxHeadF(c), tail), BuildTx, TxParts, tx);
  }

  lemma CoinbaseOutputWritten(c: Codec, x: CoinbaseOutput)
    ensures CoinbaseOutputF(c).write(x) == CoinbaseOutputBytes(x)
  {
    PairWrites(U64F, PointF(c.commitmentOk), x.amount, x.commitment);
    PairWrites(PointF(c.keyOk), Pair(U64F, PointF(c.commitmentOk)), x.oneTimeKey, (x.amount, x.commitment));
    MappedWrites(Pair(PointF(c.keyOk), Pair(U64F, PointF(c.commitmentOk))), BuildCoinbaseOutput, CoinbaseOutputParts,
        x);
  }

  lemma CoinbaseHeadWritten(c: Codec, x: Coinbase)
    ensures CoinbaseHeadF(c).write(CoinbaseParts(x).0)
            == ToLe(8, x.height) + (ArrayOf(x.txPublic) + VecBytes(CoinbaseOutputBytes, x.outputs))
  {
    forall o: CoinbaseOutput
      ensures CoinbaseOutputF(c).write(o) == CoinbaseOutputBytes(o)
    {
      CoinbaseOutputWritten(c, o);
    }
    var outputs := Counted(4, MAX_COMMITMENTS, CoinbaseOutputF(c));
    CountedWrites(4, MAX_COMMITMENTS, CoinbaseOutputF(c), CoinbaseOutputBytes, x.outputs);
    PairWrites(PointF(c.keyOk), outputs, x.txPublic, x.outputs);
    PairWrites(U64F, Pair(PointF(c.keyOk), outputs), x.height, (x.txPublic, x.outputs));
  }

  lemma CoinbaseWritten(c: Codec, x: Coinbase)
    ensures CoinbaseF(c).write(x) == CoinbaseBytes(x)
  {
    CoinbaseHeadWritten(c, x);
    EmbeddedWritten(c, x.shielded);
    var head := CoinbaseParts(x).0;
    assert CoinbaseTailF(c, head).write(x.shielded) == if x.outputs == [] then EmbeddedBytes(x.shielded) else [];
    var tail := (head: CoinbaseHead) => CoinbaseTailF(c, head);
    ThenWrites(CoinbaseHeadF(c), tail, head, x.shielded);
    MappedWrites(Then(CoinbaseHeadF(c), tail), BuildCoinbase, CoinbaseParts, x);
  }

  lemma HeaderWritten(h: BlockHeader)
    ensures HeaderF.write(h) == HeaderBytes(h)
  {
    OneByte(h.majorVersion);
    OneByte(h.minorVersion);
    var f3 := Pair(Array32F, U32F);
    var f2 := Pair(U64F, f3);
    var f1 := Pair(ByteF, f2);
    var p := HeaderPartsOf(h);
    PairWrites(Array32F, U32F, h.prevId, h.nonce);
    PairWrites(U64F, f3, h.timestamp, p.1.1.1);
    PairWrites(ByteF, f2, h.minorVersion, p.1.1);
    PairWrites(ByteF, f1, h.majorVersion, p.1);
    MappedWrites(Pair(ByteF, f1), BuildHeader, HeaderPartsOf, h);
  }

  lemma {:induction false} BlockWritten(c: Codec, b: Block)
    ensures BlockF(c).write(b) == BlockBytes(b)
  {
    HeaderWritten(b.header);
    CoinbaseWritten(c, b.coinbase);
    var hashes := Counted(4, MAX_TXS_PER_BLOCK, Array32F);
    CountedWrites(4, MAX_TXS_PER_BLOCK, Array32F, ArrayOf, b.txHashes);
    PairWrites(CoinbaseF(c), hashes, b.coinbase, b.txHashes);
    PairWrites(HeaderF, Pair(CoinbaseF(c), hashes), b.header, (b.coinbase, b.txHashes));
    MappedWrites(Pair(HeaderF, Pair(CoinbaseF(c), hashes)), BuildBlock, BlockPartsOf, b);
  }
}
