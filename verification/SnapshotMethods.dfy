/** Encoding a chain state and restoring a chain, loop by loop (noct/core/src/chain.rs). */
module SnapshotMethods {
  import opened Types
  import opened Data
  import opened Ledgers
  import opened LittleEndian
  import opened Formats
  import opened Wire
  import opened Encoders
  import opened Snapshots
  import opened Chain

  // --- encoding ------------------------------------------------------------

  function HeaderRecordBytes(r: HeaderRecord): seq<Byte> {
    ArrayOf(r.0) + (ToLe(8, r.1.0) + ToLe(16, r.1.1))
  }

  function OutputRecordBytes(r: OutputRecord): seq<Byte> {
    ArrayOf(r.0) + (ArrayOf(r.1.0) + (ToLe(8, r.1.1.0) + [if r.1.1.1 then 1 else 0]))
  }

  /** An 8-byte count, then the items. */
  function LongVecBytes<T>(w: T -> seq<Byte>, xs: seq<T>): seq<Byte> {
    ToLe(8, |xs|) + Concat(w, xs)
  }

  function StateBytes(cs: ChainState): seq<Byte>
    requires cs.Columns()
  {
    [1] + (ToLe(8, cs.maturity) + (ToLe(8, cs.emitted) + (ArrayOf(cs.genesis)
    + (LongVecBytes(HeaderRecordBytes, HeaderRecords(cs)) + (LongVecBytes(OutputRecordBytes, OutputRecords(cs))
    + (LongVecBytes(ArrayOf, cs.spentImages) + (ToLe(8, |cs.shielded|) + cs.shielded)))))))
  }

  method WriteHeaders(out: seq<Byte>, cs: ChainState) returns (b: seq<Byte>)
    requires cs.Columns()
    ensures b == out + LongVecBytes(HeaderRecordBytes, HeaderRecords(cs))
  {
    ghost var records := HeaderRecords(cs);
    b := out + ToLe(8, |cs.blockIds|);
    for i := 0 to |cs.blockIds|
      invariant b == out + (ToLe(8, |records|) + Concat(HeaderRecordBytes, records[..i]))
    {
      ConcatSnoc(HeaderRecordBytes, records, i);
      ItemAppended(out, ToLe(8, |records|), Concat(HeaderRecordBytes, records[..i]), HeaderRecordBytes(records[i]));
      Appended(b + ArrayOf(cs.blockIds[i]), ToLe(8, cs.timestamps[i]), ToLe(16, cs.work[i]));
      Appended(b, ArrayOf(cs.blockIds[i]), ToLe(8, cs.timestamps[i]) + ToLe(16, cs.work[i]));
      b := b + ArrayOf(cs.blockIds[i]);
      b := b + ToLe(8, cs.timestamps[i]);
      b := b + ToLe(16, cs.work[i]);
    }
    assert records[..|records|] == records;
  }

  method WriteOutputRecord(out: seq<Byte>, m: RingMember, meta: OutputMeta) returns (b: seq<Byte>)
    ensures b == out + OutputRecordBytes((m.key, (m.commitment, (meta.height, meta.coinbase))))
  {
    b := out + ArrayOf(m.key);
    b := b + ArrayOf(m.commitment);
    b := b + ToLe(8, meta.height);
    b := b + [if meta.coinbase then 1 else 0];
  }

  method WriteOutputRecords(out: seq<Byte>, cs: ChainState) returns (b: seq<Byte>)
    requires cs.Columns()
    ensures b == out + LongVecBytes(OutputRecordBytes, OutputRecords(cs))
  {
    ghost var records := OutputRecords(cs);
    b := out + ToLe(8, |cs.outputs|);
    for i := 0 to |cs.outputs|
      invariant b == out + (ToLe(8, |records|) + Concat(OutputRecordBytes, records[..i]))
    {
      ConcatSnoc(OutputRecordBytes, records, i);
      ItemAppended(out, ToLe(8, |records|), Concat(OutputRecordBytes, records[..i]), OutputRecordBytes(records[i]));
      b := WriteOutputRecord(b, cs.outputs[i], cs.outputMeta[i]);
    }
    assert records[..|records|] == records;
  }

  method WriteImages(out: seq<Byte>, images: seq<Bytes32>) returns (b: seq<Byte>)
    ensures b == out + LongVecBytes(ArrayOf, images)
  {
    b := out + ToLe(8, |images|);
    for i := 0 to |images|
      invariant b == out + (ToLe(8, |images|) + Concat(ArrayOf, images[..i]))
    {
      ConcatSnoc(ArrayOf, images, i);
      ItemAppended(out, ToLe(8, |images|), Concat(ArrayOf, images[..i]), ArrayOf(images[i]));
      b := b + ArrayOf(images[i]);
    }
    assert images[..|images|] == images;
  }

  /** `ChainState::encode`. */
  method EncodeState(cs: ChainState) returns (b: seq<Byte>)
    requires cs.Columns()
    ensures b == StateBytes(cs)
  {
    ghost var blobOn := ToLe(8, |cs.shielded|) + cs.shielded;
    ghost var imagesOn := LongVecBytes(ArrayOf, cs.spentImages) + blobOn;
    ghost var outputsOn := LongVecBytes(OutputRecordBytes, OutputRecords(cs)) + imagesOn;
    ghost var headersOn := LongVecBytes(HeaderRecordBytes, HeaderRecords(cs)) + outputsOn;
    ghost var genesisOn := ArrayOf(cs.genesis) + headersOn;
    ghost var emittedOn := ToLe(8, cs.emitted) + genesisOn;
    b := [1];
    Appended(b, ToLe(8, cs.maturity), emittedOn);
    b := b + ToLe(8, cs.maturity);
    Appended(b, ToLe(8, cs.emitted), genesisOn);
    b := b + ToLe(8, cs.emitted);
    Appended(b, ArrayOf(cs.genesis), headersOn);
    b := b + ArrayOf(cs.genesis);
    Appended(b, LongVecBytes(HeaderRecordBytes, HeaderRecords(cs)), outputsOn);
    b := WriteHeaders(b, cs);
    Appended(b, LongVecBytes(OutputRecordBytes, OutputRecords(cs)), imagesOn);
    b := WriteOutputRecords(b, cs);
    Appended(b, LongVecBytes(ArrayOf, cs.spentImages), blobOn);
    b := WriteImages(b, cs.spentImages);
    Appended(b, ToLe(8, |cs.shielded|), cs.shielded);
    b := b + ToLe(8, |cs.shielded|);
    b := b + cs.shielded;
  }

  lemma LongVecWritten<T>(f: Format<T>, w: T -> seq<Byte>, xs: seq<T>)
    requires forall i :: 0 <= i < |xs| ==> f.write(xs[i]) == w(xs[i])
    ensures Counted(8, TWO_64, f).write(xs) == LongVecBytes(w, xs)
  {
    ConcatSame(f.write, w, xs);
  }

  lemma HeadersWritten(xs: seq<HeaderRecord>)
    ensures HeadersF.write(xs) == LongVecBytes(HeaderRecordBytes, xs)
  {
    var record := Pair(Array32F, Pair(U64F, U128F));
    forall i | 0 <= i < |xs|
      ensures record.write(xs[i]) == HeaderRecordBytes(xs[i])
    {
      PairWrites(U64F, U128F, xs[i].1.0, xs[i].1.1);
      PairWrites(Array32F, Pair(U64F, U128F), xs[i].0, xs[i].1);
    }
    LongVecWritten(record, HeaderRecordBytes, xs);
  }

  lemma OutputRecordsWritten(xs: seq<OutputRecord>)
    ensures OutputsF.write(xs) == LongVecBytes(OutputRecordBytes, xs)
  {
    var record := Pair(Array32F, Pair(Array32F, Pair(U64F, FlagF)));
    forall i | 0 <= i < |xs|
      ensures record.write(xs[i]) == OutputRecordBytes(xs[i])
    {
      PairWrites(U64F, FlagF, xs[i].1.1.0, xs[i].1.1.1);
      PairWrites(Array32F, Pair(U64F, FlagF), xs[i].1.0, xs[i].1.1);
      PairWrites(Array32F, Pair(Array32F, Pair(U64F, FlagF)), xs[i].0, xs[i].1);
    }
    LongVecWritten(record, OutputRecordBytes, xs);
  }

  lemma EightWrite<A, B, C, D, E, F, G, H>(
    a: Format<A>, b: Format<B>, c: Format<C>, d: Format<D>, e: Format<E>, f: Format<F>, g: Format<G>, h: Format<H>,
    x: (A, (B, (C, (D, (E, (F, (G, H))))))))
    ensures Pair(a, Pair(b, Pair(c, Pair(d, Pair(e, Pair(f, Pair(g, h))))))).write(x)
            == a.write(x.0) + (b.write(x.1.0) + (c.write(x.1.1.0) + (d.write(x.1.1.1.0) + (e.write(x.1.1.1.1.0)
               + (f.write(x.1.1.1.1.1.0) + (g.write(x.1.1.1.1.1.1.0) + h.write(x.1.1.1.1.1.1.1)))))))
  {
    var last := Pair(c, Pair(d, Pair(e, Pair(f, Pair(g, h)))));
    SixWrite(c, d, e, f, g, h, x.1.1);
    PairWrites(b, last, x.1.0, x.1.1);
    PairWrites(a, Pair(b, last), x.0, x.1);
  }

  lemma {:induction false} ListsWritten(cs: ChainState)
    requires cs.Columns()
    ensures HeadersF.write(HeaderRecords(cs)) == LongVecBytes(HeaderRecordBytes, HeaderRecords(cs))
    ensures OutputsF.write(OutputRecords(cs)) == LongVecBytes(OutputRecordBytes, OutputRecords(cs))
    ensures ImagesF.write(cs.spentImages) == LongVecBytes(ArrayOf, cs.spentImages)
    ensures BlobF.write(cs.shielded) == ToLe(8, |cs.shielded|) + cs.shielded
  {
    HeadersWritten(HeaderRecords(cs));
    OutputRecordsWritten(OutputRecords(cs));
    LongVecWritten(Array32F, ArrayOf, cs.spentImages);
  }

  lemma ScalarsWritten(cs: ChainState)
    ensures StateVersionF.write(1) == [1]
    ensures U64F.write(cs.maturity) == ToLe(8, cs.maturity) && U64F.write(cs.emitted) == ToLe(8, cs.emitted)
    ensures Array32F.write(cs.genesis) == ArrayOf(cs.genesis)
  {
    OneByte(1);
  }

  /** The loops write what the format of `Snapshots` writes, so the round trip is theirs. */
  lemma StateWritten(cs: ChainState)
    requires cs.Columns()
    ensures Encode(cs) == StateBytes(cs)
  {
    EightWrite(StateVersionF, U64F, U64F, Array32F, HeadersF, OutputsF, ImagesF, BlobF, StateFieldsOf(cs));
    ScalarsWritten(cs);
    ListsWritten(cs);
  }

  // --- restoring -----------------------------------------------------------

  method IndexOutputs(outputs: seq<RingMember>) returns (membership: map<RingMember, nat>)
    ensures membership == Indexed(map[], 0, outputs)
  {
    membership := map[];
    for i := 0 to |outputs|
      invariant Indexed(map[], 0, outputs) == Indexed(membership, i, outputs[i..])
    {
      assert outputs[i..][1..] == outputs[i + 1..];
      membership := membership[outputs[i] := i];
    }
  }

  /** `from_state`: nothing, or a chain that validates forward and holds no history. */
  method RestoreChain(codec: SnapshotCodec, expected: Bytes32, cs: ChainState) returns (chain: Blockchain?)
    requires cs.blockIds != [] ==> |cs.blockIds| == |cs.timestamps| == |cs.work|
    ensures chain == null <==> FromState(codec, expected, cs).None?
    ensures chain != null ==> fresh(chain) && chain.Valid() && Some(chain.State()) == FromState(codec, expected, cs)
  {
    if cs.genesis != expected || cs.blockIds == [] || cs.blockIds[0] != expected {
      return null;
    }
    if |cs.outputs| != |cs.outputMeta| {
      return null;
    }
    var membership := IndexOutputs(cs.outputs);
    var spent := SetOf(cs.spentImages);
    if |membership| != |cs.outputs| || |spent| != |cs.spentImages| {
      return null;
    }
    var pool := codec.poolFrom(cs.shielded);
    if pool.None? {
      return null;
    }
    var restored := Ledger(
      [], [], cs.blockIds, cs.timestamps, cs.work, cs.outputs, membership, cs.outputMeta,
      spent, cs.emitted, pool.value, cs.maturity, false);
    chain := new Blockchain.FromFields(restored);
  }
}
