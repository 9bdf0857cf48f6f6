/**
 Snapshots: the chain state and, inside it, the shielded state, encoded, decoded and
 restored (noct/core/src/chain.rs, noct/core/src/shielded_state.rs).
 */
module Snapshots {
  import opened Types
  import opened Data
  import opened Oracles
  import opened Ledgers
  import opened LittleEndian
  import opened Formats
  import opened Wire
  import opened WellFormed
  import opened ShieldedPool
  import opened Pools

  const TREE_DEPTH: nat := 32

  // --- ascending lists -----------------------------------------------------

  predicate IsAscending(xs: seq<Bytes32>) {
    forall i, j :: 0 <= i < j < |xs| ==> xs[i] < xs[j]
  }

  function Placed(k: Bytes32, xs: seq<Bytes32>): (r: seq<Bytes32>)
    ensures multiset(r) == multiset(xs) + multiset{k}
  {
    if xs == [] || k < xs[0] then [k] + xs
    else
      assert xs == [xs[0]] + xs[1..];
      [xs[0]] + Placed(k, xs[1..])
  }

  lemma PlacedSet(k: Bytes32, xs: seq<Bytes32>)
    ensures SetOf(Placed(k, xs)) == SetOf(xs) + {k}
  {
    var r := Placed(k, xs);
    forall x
      ensures x in r <==> x in xs || x == k
    {
      assert x in r <==> x in multiset(r);
      assert x in xs <==> x in multiset(xs);
    }
  }

  lemma {:induction false} PlacedAscending(k: Bytes32, xs: seq<Bytes32>)
    requires IsAscending(xs) && k !in xs
    ensures IsAscending(Placed(k, xs))
  {
    if xs == [] || k < xs[0] {
    } else {
      PlacedAscending(k, xs[1..]);
      var tail := Placed(k, xs[1..]);
      PlacedSet(k, xs[1..]);
      forall j | 0 <= j < |tail|
        ensures xs[0] < tail[j]
      {
        assert tail[j] in SetOf(tail);
      }
    }
  }

  /** The elements of a set, sorted, whatever order the set iterates in. */
  ghost function Sorted(s: set<Bytes32>): (xs: seq<Bytes32>)
    ensures SetOf(xs) == s && IsAscending(xs)
    decreases |s|
  {
    if s == {} then []
    else
      var k :| k in s;
      var rest := Sorted(s - {k});
      assert k !in rest by {
        assert k !in SetOf(rest);
      }
      PlacedSet(k, rest);
      PlacedAscending(k, rest);
      Placed(k, rest)
  }

  lemma {:induction false} AscendingCount(xs: seq<Bytes32>)
    requires IsAscending(xs)
    ensures |SetOf(xs)| == |xs|
  {
    if xs != [] {
      AscendingCount(xs[1..]);
      assert xs == [xs[0]] + xs[1..];
      assert SetOf(xs) == {xs[0]} + SetOf(xs[1..]);
    }
  }

  /** There is only one way to sort, so equal chains write equal snapshots. */
  lemma {:induction false} SortedIsUnique(xs: seq<Bytes32>, ys: seq<Bytes32>)
    requires IsAscending(xs) && IsAscending(ys) && SetOf(xs) == SetOf(ys)
    ensures xs == ys
    decreases |xs|
  {
    AscendingCount(xs);
    AscendingCount(ys);
    if xs != [] {
      assert xs[0] in SetOf(ys) && ys[0] in SetOf(xs);
      assert xs == [xs[0]] + xs[1..] && ys == [ys[0]] + ys[1..];
      assert SetOf(xs[1..]) == SetOf(xs) - {xs[0]};
      assert SetOf(ys[1..]) == SetOf(ys) - {ys[0]};
      SortedIsUnique(xs[1..], ys[1..]);
    }
  }

  // --- the shielded half ---------------------------------------------------

  /** The right edge of the note tree, as the tree library takes it apart. */
  datatype Frontier = Frontier(position: U64, leaf: Bytes32, ommers: seq<Bytes32>)

  /** The tree library: taking a tree apart, putting it together, and which nodes are field elements. */
  datatype TreeLibrary = TreeLibrary(
    parts: seq<Bytes32> -> Frontier,
    rebuild: Frontier -> Option<seq<Bytes32>>,
    nodeOk: Bytes32 -> bool)

  /** The library puts this tree back together from its own parts, which are well formed. */
  predicate Rebuilds(lib: TreeLibrary, tree: seq<Bytes32>) {
    tree != [] ==>
      var f := lib.parts(tree);
      && |f.ommers| <= TREE_DEPTH && lib.nodeOk(f.leaf)
      && (forall i :: 0 <= i < |f.ommers| ==> lib.nodeOk(f.ommers[i]))
      && lib.rebuild(f) == Some(tree)
  }

  const StateVersionF: Format<Byte> := Checked(ByteF, (v: Byte) => v == 1, BadTag)

  type FrontierFields = (U64, (Bytes32, seq<Bytes32>))

  function BuildFrontier(p: FrontierFields): Frontier { Frontier(p.0, p.1.0, p.1.1) }

  function FrontierParts(f: Frontier): FrontierFields { (f.position, (f.leaf, f.ommers)) }

  function FrontierF(lib: TreeLibrary): Format<Frontier> {
    Mapped(
      Pair(U64F, Pair(Checked(Array32F, lib.nodeOk, BadPoint),
          Counted(4, TREE_DEPTH, Checked(Array32F, lib.nodeOk, BadPoint)))),
      BuildFrontier, FrontierParts)
  }

  type QueueEntry = (U64, Bytes32)
  type PoolFields =
    (Byte, (Option<Frontier>, (U64, (U64, (seq<Bytes32>, (seq<Bytes32>, seq<QueueEntry>))))))

  const QueueEntryF: Format<QueueEntry> := Pair(U64F, Array32F)
  const AnchorsF: Format<seq<Bytes32>> := Counted(4, ANCHOR_DEPTH, Array32F)
  const NullifiersF: Format<seq<Bytes32>> := Counted(4, TWO_32, Array32F)
  const PendingF: Format<seq<QueueEntry>> := Counted(4, ANCHOR_DEPTH, QueueEntryF)

  function PoolF(lib: TreeLibrary): Format<PoolFields> {
    Pair(StateVersionF,
        Pair(OptionF(FrontierF(lib)), Pair(U64F, Pair(U64F, Pair(AnchorsF, Pair(NullifiersF, PendingF))))))
  }

  function Entries(queue: seq<Queued>): (r: seq<QueueEntry>)
    ensures |r| == |queue|
  {
    seq(|queue|, i requires 0 <= i < |queue| => (AsU64(queue[i].height), queue[i].note))
  }

  function Queue(entries: seq<QueueEntry>): (r: seq<Queued>)
    ensures |r| == |entries|
  {
    seq(|entries|, i requires 0 <= i < |entries| => Queued(entries[i].0, entries[i].1))
  }

  function TreePart(lib: TreeLibrary, tree: seq<Bytes32>): Option<Frontier> {
    if tree == [] then None else Some(lib.parts(tree))
  }

  ghost function FieldsOf(lib: TreeLibrary, p: PoolState): PoolFields {
    (1, (TreePart(lib, p.tree),
      (p.totals.ring, (p.totals.shielded, (p.anchors, (Sorted(p.nullifiers), Entries(p.pending)))))))
  }

  /** `ShieldedState::to_bytes`. */
  ghost function PoolBytes(lib: TreeLibrary, p: PoolState): seq<Byte> {
    PoolF(lib).write(FieldsOf(lib, p))
  }

  function PoolOf(tree: seq<Bytes32>, fields: PoolFields): PoolState {
    var (ring, (shielded, (anchors, (nullifiers, pending)))) := fields.1.1;
    PoolState(tree, SetOf(nullifiers), anchors, Totals(ring, shielded), Queue(pending))
  }

  /** The state must agree with itself: its root is the newest anchor it claims. */
  predicate SelfConsistent(o: Crypto, p: PoolState) {
    if p.anchors == [] then p.tree == [] else p.anchors[|p.anchors| - 1] == o.treeRoot(p.tree)
  }

  function PoolFromFields(o: Crypto, lib: TreeLibrary, fields: PoolFields): Option<PoolState> {
    var tree := if fields.1.0.None? then Some([]) else lib.rebuild(fields.1.0.value);
    if tree.None? then None
    else if SelfConsistent(o, PoolOf(tree.value, fields)) then Some(PoolOf(tree.value, fields))
    else None
  }

  /** `ShieldedState::from_bytes`. */
  function PoolFromBytes(o: Crypto, lib: TreeLibrary, bytes: seq<Byte>): Option<PoolState> {
    match DecodeAll(PoolF(lib), bytes)
    case Err(_) => None
    case Ok(fields) => PoolFromFields(o, lib, fields)
  }

  /** What a shielded state needs for its encoding to hold it. */
  predicate PoolFits(o: Crypto, lib: TreeLibrary, p: PoolState) {
    && Rebuilds(lib, p.tree)
    && p.anchors != [] && SelfConsistent(o, p)
    && |p.anchors| <= ANCHOR_DEPTH && |p.pending| <= ANCHOR_DEPTH && |p.nullifiers| < TWO_32
    && forall i :: 0 <= i < |p.pending| ==> p.pending[i].height < TWO_64
  }

  lemma FrontierExact(lib: TreeLibrary)
    ensures Exact(FrontierF(lib))
  {
    NumbersExact();
    Array32Exact();
    var node := Checked(Array32F, lib.nodeOk, BadPoint);
    CheckedExact(Array32F, lib.nodeOk, BadPoint);
    CountedExact(4, TREE_DEPTH, node);
    PairExact(node, Counted(4, TREE_DEPTH, node));
    PairExact(U64F, Pair(node, Counted(4, TREE_DEPTH, node)));
    MappedExact(Pair(U64F, Pair(node, Counted(4, TREE_DEPTH, node))), BuildFrontier, FrontierParts);
  }

  lemma ListsExact()
    ensures Exact(AnchorsF) && Exact(NullifiersF) && Exact(PendingF)
  {
    NumbersExact();
    Array32Exact();
    CountedExact(4, ANCHOR_DEPTH, Array32F);
    CountedExact(4, TWO_32, Array32F);
    PairExact(U64F, Array32F);
    CountedExact(4, ANCHOR_DEPTH, QueueEntryF);
  }

  lemma StateVersionExact()
    ensures Exact(StateVersionF) && StateVersionF.fits(1)
  {
    NumbersExact();
    NumbersFit();
    CheckedExact(ByteF, (v: Byte) => v == 1, BadTag);
  }

  lemma PoolExact(lib: TreeLibrary)
    ensures Exact(PoolF(lib))
  {
    StateVersionExact();
    FrontierExact(lib);
    OptionExact(FrontierF(lib));
    NumbersExact();
    ListsExact();
    var f5 := Pair(NullifiersF, PendingF);
    PairExact(NullifiersF, PendingF);
    var f4 := Pair(AnchorsF, f5);
    PairExact(AnchorsF, f5);
    var f3 := Pair(U64F, f4);
    PairExact(U64F, f4);
    var f2 := Pair(U64F, f3);
    PairExact(U64F, f3);
    var f1 := Pair(OptionF(FrontierF(lib)), f2);
    PairExact(OptionF(FrontierF(lib)), f2);
    PairExact(StateVersionF, f1);
  }

  lemma Array32Fits(x: Bytes32)
    ensures Array32F.fits(x)
  {
    Array32Exact();
  }

  lemma FrontierFits(lib: TreeLibrary, f: Frontier)
    requires |f.ommers| <= TREE_DEPTH && lib.nodeOk(f.leaf)
    requires forall i :: 0 <= i < |f.ommers| ==> lib.nodeOk(f.ommers[i])
    ensures FrontierF(lib).fits(f)
  {
    NumbersFit();
    var node := Checked(Array32F, lib.nodeOk, BadPoint);
    forall x: Bytes32
      ensures node.fits(x) <==> lib.nodeOk(x)
    {
      Array32Fits(x);
    }
    var ommers := Counted(4, TREE_DEPTH, node);
    CountedFits(TREE_DEPTH, node, f.ommers);
    PairFits(node, ommers, f.leaf, f.ommers);
    PairFits(U64F, Pair(node, ommers), f.position, (f.leaf, f.ommers));
    assert BuildFrontier(FrontierParts(f)) == f;
    MappedFits(Pair(U64F, Pair(node, ommers)), BuildFrontier, FrontierParts, f);
  }

  lemma HashesFitCount(max: nat, xs: seq<Bytes32>)
    requires |xs| <= max < TWO_32
    ensures Counted(4, max, Array32F).fits(xs)
  {
    forall i | 0 <= i < |xs|
      ensures Array32F.fits(xs[i])
    {
      Array32Fits(xs[i]);
    }
    CountedFits(max, Array32F, xs);
  }

  /** The nullifier count has 4 bytes and no other bound. */
  lemma NullifiersFit(xs: seq<Bytes32>)
    requires |xs| < TWO_32
    ensures NullifiersF.fits(xs)
  {
    Widths();
    forall i | 0 <= i < |xs|
      ensures Array32F.fits(xs[i])
    {
      Array32Fits(xs[i]);
    }
    AllFitEach(Array32F, xs);
  }

  lemma PendingFits(entries: seq<QueueEntry>)
    requires |entries| <= ANCHOR_DEPTH
    ensures PendingF.fits(entries)
  {
    NumbersFit();
    forall i | 0 <= i < |entries|
      ensures QueueEntryF.fits(entries[i])
    {
      Array32Fits(entries[i].1);
      PairFits(U64F, Array32F, entries[i].0, entries[i].1);
    }
    CountedFits(ANCHOR_DEPTH, QueueEntryF, entries);
  }

  lemma TreePartFits(lib: TreeLibrary, tree: seq<Bytes32>)
    requires Rebuilds(lib, tree)
    ensures OptionF(FrontierF(lib)).fits(TreePart(lib, tree))
  {
    if tree != [] {
      FrontierFits(lib, lib.parts(tree));
    }
    OptionFits(FrontierF(lib), TreePart(lib, tree));
  }

  lemma EarlierFieldsFit(lib: TreeLibrary, p: PoolState)
    requires Rebuilds(lib, p.tree) && |p.anchors| <= ANCHOR_DEPTH && |p.nullifiers| < TWO_32
    ensures var x := FieldsOf(lib, p);
            && StateVersionF.fits(x.0) && OptionF(FrontierF(lib)).fits(x.1.0) && U64F.fits(x.1.1.0)
            && U64F.fits(x.1.1.1.0) && AnchorsF.fits(x.1.1.1.1.0) && NullifiersF.fits(x.1.1.1.1.1.0)
  {
    StateVersionExact();
    NumbersFit();
    TreePartFits(lib, p.tree);
    HashesFitCount(ANCHOR_DEPTH, p.anchors);
    AscendingCount(Sorted(p.nullifiers));
    NullifiersFit(Sorted(p.nullifiers));
  }

  lemma FieldsFit(o: Crypto, lib: TreeLibrary, p: PoolState)
    requires PoolFits(o, lib, p)
    ensures PoolF(lib).fits(FieldsOf(lib, p))
  {
    EarlierFieldsFit(lib, p);
    PendingFits(Entries(p.pending));
    SevenFit(StateVersionF, OptionF(FrontierF(lib)), U64F, U64F, AnchorsF, NullifiersF, PendingF, FieldsOf(lib, p));
  }

  lemma PoolFieldsRoundTrip(o: Crypto, lib: TreeLibrary, p: PoolState)
    requires PoolFits(o, lib, p)
    ensures PoolFromFields(o, lib, FieldsOf(lib, p)) == Some(p)
  {
    assert Queue(Entries(p.pending)) == p.pending;
    assert PoolOf(p.tree, FieldsOf(lib, p)) == p;
  }

  /** A shielded state that fits comes back exactly. */
  lemma PoolRoundTrip(o: Crypto, lib: TreeLibrary, p: PoolState)
    requires PoolFits(o, lib, p)
    ensures PoolFromBytes(o, lib, PoolBytes(lib, p)) == Some(p)
  {
    FieldsFit(o, lib, p);
    PoolExact(lib);
    DecodesExactly(PoolF(lib), FieldsOf(lib, p), PoolBytes(lib, p));
    PoolFieldsRoundTrip(o, lib, p);
  }

  lemma PairFails<A(!new), B(!new)>(f: Format<A>, g: Format<B>, x: (A, B))
    requires ReadsBack(f) && f.fits(x.0) && g.read(g.write(x.1)).Err?
    ensures Pair(f, g).read(Pair(f, g).write(x)).Err?
  {
    assert f.read(f.write(x.0) + g.write(x.1)) == Ok((x.0, g.write(x.1)));
  }

  lemma LongCountFails<T>(max: nat, f: Format<T>, xs: seq<T>)
    requires max < |xs| < TWO_32
    ensures var c := Counted(4, max, f);
            c.read(c.write(xs)).Err?
  {
    Widths();
    ToFromLe(4, |xs|);
    var bytes := ToLe(4, |xs|) + Concat(f.write, xs);
    assert bytes[..4] == ToLe(4, |xs|);
    assert Counted(4, max, f).write(xs) == bytes;
    assert CountF(4, max).read(bytes).Err?;
  }

  lemma EarlierFieldsRead(lib: TreeLibrary)
    ensures ReadsBack(StateVersionF) && ReadsBack(OptionF(FrontierF(lib))) && ReadsBack(U64F)
    ensures ReadsBack(AnchorsF) && ReadsBack(NullifiersF)
  {
    StateVersionExact();
    FrontierExact(lib);
    OptionExact(FrontierF(lib));
    NumbersExact();
    ListsExact();
  }

  lemma QueueFailsAll(lib: TreeLibrary, x: PoolFields)
    requires StateVersionF.fits(x.0) && OptionF(FrontierF(lib)).fits(x.1.0) && U64F.fits(x.1.1.0)
               && U64F.fits(x.1.1.1.0)
    requires AnchorsF.fits(x.1.1.1.1.0) && NullifiersF.fits(x.1.1.1.1.1.0)
    requires PendingF.read(PendingF.write(x.1.1.1.1.1.1)).Err?
    ensures DecodeAll(PoolF(lib), PoolF(lib).write(x)).Err?
  {
    EarlierFieldsRead(lib);
    var f5 := Pair(NullifiersF, PendingF);
    PairFails(NullifiersF, PendingF, x.1.1.1.1.1);
    var f4 := Pair(AnchorsF, f5);
    PairFails(AnchorsF, f5, x.1.1.1.1);
    var f3 := Pair(U64F, f4);
    PairFails(U64F, f4, x.1.1.1);
    var f2 := Pair(U64F, f3);
    PairFails(U64F, f3, x.1.1);
    var f1 := Pair(OptionF(FrontierF(lib)), f2);
    PairFails(OptionF(FrontierF(lib)), f2, x.1);
    PairFails(StateVersionF, f1, x);
  }

  /** A queue longer than the anchor window is written but not read back. */
  lemma LongQueueIsRefused(o: Crypto, lib: TreeLibrary, p: PoolState)
    requires Rebuilds(lib, p.tree) && |p.anchors| <= ANCHOR_DEPTH && |p.nullifiers| < TWO_32
    requires ANCHOR_DEPTH < |p.pending| < TWO_32
    ensures PoolFromBytes(o, lib, PoolBytes(lib, p)) == None
  {
    EarlierFieldsFit(lib, p);
    LongCountFails(ANCHOR_DEPTH, QueueEntryF, Entries(p.pending));
    QueueFailsAll(lib, FieldsOf(lib, p));
  }

  // --- the chain state -----------------------------------------------------

  /** What `ChainState` keeps; columns as the program has them. */
  datatype ChainState = ChainState(
    maturity: U64,
    emitted: U64,
    genesis: Bytes32,
    blockIds: seq<Bytes32>,
    timestamps: seq<U64>,
    work: seq<U128>,
    outputs: seq<RingMember>,
    outputMeta: seq<OutputMeta>,
    spentImages: seq<Bytes32>,
    shielded: seq<Byte>)
  {
    predicate Columns() {
      |blockIds| == |timestamps| == |work| && |outputs| == |outputMeta|
    }
  }

  type HeaderRecord = (Bytes32, (U64, U128))
  type OutputRecord = (Bytes32, (Bytes32, (U64, bool)))
  type StateFields =
    (Byte, (U64, (U64, (Bytes32, (seq<HeaderRecord>, (seq<OutputRecord>, (seq<Bytes32>, seq<Byte>)))))))

  /** One byte; any value but zero reads as true, so this is the one field with two encodings. */
  const FlagF: Format<bool> := Format(
    (b: bool) => true,
    (b: bool) => [if b then 1 else 0],
    (s: seq<Byte>) => if s == [] then Err(Truncated) else Ok((s[0] != 0, s[1..])))

  lemma FlagReadsBack()
    ensures ReadsBack(FlagF)
  {
    forall b: bool, rest: seq<Byte>
      ensures FlagF.read(FlagF.write(b) + rest) == Ok((b, rest))
    {
      assert (FlagF.write(b) + rest)[1..] == rest;
    }
  }

  /** So a chain state may decode though its bytes are not what encoding it gives. */
  lemma FlagIsNotCanonical()
    ensures FlagF.read([2]) == FlagF.read([1]) == Ok((true, [])) && FlagF.write(true) == [1]
  {
    assert [2][1..] == [] && [1][1..] == [];
  }

  const HeadersF: Format<seq<HeaderRecord>> := Counted(8, TWO_64, Pair(Array32F, Pair(U64F, U128F)))
  const OutputsF: Format<seq<OutputRecord>> :=
    Counted(8, TWO_64, Pair(Array32F, Pair(Array32F, Pair(U64F, FlagF))))
  const ImagesF: Format<seq<Bytes32>> := Counted(8, TWO_64, Array32F)
  const BlobF: Format<seq<Byte>> := Prefixed(8, TWO_64)

  const StateF: Format<StateFields> :=
    Pair(StateVersionF, Pair(U64F, Pair(U64F, Pair(Array32F, Pair(HeadersF, Pair(OutputsF, Pair(ImagesF, BlobF)))))))

  function HeaderRecords(cs: ChainState): (r: seq<HeaderRecord>)
    requires cs.Columns()
    ensures |r| == |cs.blockIds|
  {
    seq(|cs.blockIds|, i requires 0 <= i < |cs.blockIds| => (cs.blockIds[i], (cs.timestamps[i], cs.work[i])))
  }

  function OutputRecords(cs: ChainState): (r: seq<OutputRecord>)
    requires cs.Columns()
    ensures |r| == |cs.outputs|
  {
    seq(|cs.outputs|, i requires 0 <= i < |cs.outputs| =>
      (cs.outputs[i].key, (cs.outputs[i].commitment, (cs.outputMeta[i].height, cs.outputMeta[i].coinbase))))
  }

  function StateFieldsOf(cs: ChainState): StateFields
    requires cs.Columns()
  {
    (1, (cs.maturity,
        (cs.emitted, (cs.genesis, (HeaderRecords(cs), (OutputRecords(cs), (cs.spentImages, cs.shielded)))))))
  }

  function StateOf(f: StateFields): ChainState {
    var (headers, (outputs, (images, shielded))) := f.1.1.1.1;
    ChainState(
      f.1.0, f.1.1.0, f.1.1.1.0,
      seq(|headers|, i requires 0 <= i < |headers| => headers[i].0),
      seq(|headers|, i requires 0 <= i < |headers| => headers[i].1.0),
      seq(|headers|, i requires 0 <= i < |headers| => headers[i].1.1),
      seq(|outputs|, i requires 0 <= i < |outputs| => RingMember(outputs[i].0, outputs[i].1.0)),
      seq(|outputs|, i requires 0 <= i < |outputs| => OutputMeta(outputs[i].1.1.0, outputs[i].1.1.1)),
      images,
      shielded)
  }

  function Encode(cs: ChainState): seq<Byte>
    requires cs.Columns()
  {
    StateF.write(StateFieldsOf(cs))
  }

  function Decode(bytes: seq<Byte>): Option<ChainState> {
    match DecodeAll(StateF, bytes)
    case Err(_) => None
    case Ok(fields) => Some(StateOf(fields))
  }

  lemma PairReadsBack<A(!new), B(!new)>(f: Format<A>, g: Format<B>)
    requires ReadsBack(f) && ReadsBack(g)
    ensures ReadsBack(Pair(f, g))
  {
    ThenReadsBack(f, (a: A) => g);
  }

  lemma RecordsReadBack()
    ensures ReadsBack(HeadersF) && ReadsBack(OutputsF) && ReadsBack(ImagesF) && ReadsBack(BlobF)
  {
    NumbersExact();
    Array32Exact();
    FlagReadsBack();
    PairReadsBack(U64F, U128F);
    PairReadsBack(Array32F, Pair(U64F, U128F));
    CountedReadsBack(8, TWO_64, Pair(Array32F, Pair(U64F, U128F)));
    PairReadsBack(U64F, FlagF);
    PairReadsBack(Array32F, Pair(U64F, FlagF));
    PairReadsBack(Array32F, Pair(Array32F, Pair(U64F, FlagF)));
    CountedReadsBack(8, TWO_64, Pair(Array32F, Pair(Array32F, Pair(U64F, FlagF))));
    CountedReadsBack(8, TWO_64, Array32F);
    PrefixedExact(8, TWO_64);
  }

  lemma StateReadsBack()
    ensures ReadsBack(StateF)
  {
    StateVersionExact();
    NumbersExact();
    Array32Exact();
    RecordsReadBack();
    var f6 := Pair(ImagesF, BlobF);
    PairReadsBack(ImagesF, BlobF);
    var f5 := Pair(OutputsF, f6);
    PairReadsBack(OutputsF, f6);
    var f4 := Pair(HeadersF, f5);
    PairReadsBack(HeadersF, f5);
    var f3 := Pair(Array32F, f4);
    PairReadsBack(Array32F, f4);
    var f2 := Pair(U64F, f3);
    PairReadsBack(U64F, f3);
    var f1 := Pair(U64F, f2);
    PairReadsBack(U64F, f2);
    PairReadsBack(StateVersionF, f1);
  }

  /** Counts have 8 bytes. */
  predicate Countable(cs: ChainState) {
    && cs.Columns() && |cs.blockIds| < TWO_64 && |cs.outputs| < TWO_64
    && |cs.spentImages| < TWO_64 && |cs.shielded| < TWO_64
  }

  lemma LongListFits<T>(f: Format<T>, xs: seq<T>)
    requires |xs| < TWO_64 && forall i :: 0 <= i < |xs| ==> f.fits(xs[i])
    ensures Counted(8, TWO_64, f).fits(xs)
  {
    Widths();
    AllFitEach(f, xs);
  }

  lemma U128Fits(x: U128)
    ensures U128F.fits(x)
  {
    Widths();
    assert Unsigned(16).fits(x) && AsU128(x) == x;
  }

  lemma HeadersFit(xs: seq<HeaderRecord>)
    requires |xs| < TWO_64
    ensures HeadersF.fits(xs)
  {
    var record := Pair(Array32F, Pair(U64F, U128F));
    forall i | 0 <= i < |xs|
      ensures record.fits(xs[i])
    {
      NumbersFit();
      U128Fits(xs[i].1.1);
      Array32Fits(xs[i].0);
      PairFits(U64F, U128F, xs[i].1.0, xs[i].1.1);
      PairFits(Array32F, Pair(U64F, U128F), xs[i].0, xs[i].1);
    }
    LongListFits(record, xs);
  }

  lemma OutputRecordsFit(xs: seq<OutputRecord>)
    requires |xs| < TWO_64
    ensures OutputsF.fits(xs)
  {
    var record := Pair(Array32F, Pair(Array32F, Pair(U64F, FlagF)));
    forall i | 0 <= i < |xs|
      ensures record.fits(xs[i])
    {
      NumbersFit();
      Array32Fits(xs[i].0);
      Array32Fits(xs[i].1.0);
      FourFit(Array32F, Array32F, U64F, FlagF, xs[i]);
    }
    LongListFits(record, xs);
  }

  lemma ImagesFit(xs: seq<Bytes32>)
    requires |xs| < TWO_64
    ensures ImagesF.fits(xs)
  {
    forall i | 0 <= i < |xs|
      ensures Array32F.fits(xs[i])
    {
      Array32Fits(xs[i]);
    }
    LongListFits(Array32F, xs);
  }

  lemma BlobFits(b: seq<Byte>)
    requires |b| < TWO_64
    ensures BlobF.fits(b)
  {
    Widths();
  }

  lemma StateFits(cs: ChainState)
    requires Countable(cs)
    ensures StateF.fits(StateFieldsOf(cs))
  {
    StateVersionExact();
    NumbersFit();
    Array32Fits(cs.genesis);
    HeadersFit(HeaderRecords(cs));
    OutputRecordsFit(OutputRecords(cs));
    ImagesFit(cs.spentImages);
    BlobFits(cs.shielded);
    EightFit(StateVersionF, U64F, U64F, Array32F, HeadersF, OutputsF, ImagesF, BlobF, StateFieldsOf(cs));
  }

  lemma FieldsRestoreState(cs: ChainState)
    requires cs.Columns()
    ensures StateOf(StateFieldsOf(cs)) == cs
  {
    var back := StateOf(StateFieldsOf(cs));
    assert back.blockIds == cs.blockIds && back.timestamps == cs.timestamps && back.work == cs.work;
    assert back.outputs == cs.outputs && back.outputMeta == cs.outputMeta;
  }

  /** A chain state decodes from its encoding to itself, whatever state it is. */
  lemma StateRoundTrip(cs: ChainState)
    requires Countable(cs)
    ensures Decode(Encode(cs)) == Some(cs)
  {
    StateFits(cs);
    StateReadsBack();
    WritingDecodes(StateF, StateFieldsOf(cs));
    FieldsRestoreState(cs);
  }

  // --- capture and restore -------------------------------------------------

  /** The two encodings a snapshot goes through. */
  datatype SnapshotCodec = SnapshotCodec(
    poolBytes: PoolState -> seq<Byte>,
    poolFrom: seq<Byte> -> Option<PoolState>,
    encode: ChainState -> seq<Byte>,
    decode: seq<Byte> -> Option<ChainState>)

  /** What the counts and the tree library can hold comes back as it was. */
  ghost predicate RoundTrips(o: Crypto, lib: TreeLibrary, codec: SnapshotCodec) {
    && (forall p {:trigger codec.poolBytes(p)} ::
          PoolFits(o, lib, p) ==> codec.poolFrom(codec.poolBytes(p)) == Some(p))
    && (forall cs {:trigger codec.encode(cs)} ::
          Countable(cs) ==> codec.decode(codec.encode(cs)) == Some(cs))
  }

  /** The program's encodings. */
  ghost function ProgramCodec(o: Crypto, lib: TreeLibrary): SnapshotCodec {
    SnapshotCodec(
      (p: PoolState) => PoolBytes(lib, p),
      (bytes: seq<Byte>) => PoolFromBytes(o, lib, bytes),
      (cs: ChainState) => if cs.Columns() then Encode(cs) else [],
      Decode)
  }

  lemma {:induction false} ProgramCodecRoundTrips(o: Crypto, lib: TreeLibrary)
    ensures RoundTrips(o, lib, ProgramCodec(o, lib))
  {
    var codec := ProgramCodec(o, lib);
    forall p | PoolFits(o, lib, p)
      ensures codec.poolFrom(codec.poolBytes(p)) == Some(p)
    {
      PoolRoundTrip(o, lib, p);
    }
    forall cs | Countable(cs)
      ensures codec.decode(codec.encode(cs)) == Some(cs)
    {
      StateRoundTrip(cs);
    }
  }

  /** `snapshot`: what the next block needs, without bodies or undo records. */
  ghost function Snapshot(codec: SnapshotCodec, s: Ledger): ChainState
    requires s.Shaped()
  {
    ChainState(
      s.maturity, s.emitted, s.ids[0], s.ids, s.timestamps,
      seq(|s.work|, i requires 0 <= i < |s.work| => AsU128(s.work[i])),
      s.outputs, s.meta, Sorted(s.spent), codec.poolBytes(s.shielded))
  }

  /** `from_state`: refused for another network, repeated outputs or images, or a bad shielded half. */
  function FromState(codec: SnapshotCodec, expected: Bytes32, cs: ChainState): Option<Ledger> {
    var membership := Indexed(map[], 0, cs.outputs);
    var pool := codec.poolFrom(cs.shielded);
    if cs.genesis != expected || cs.blockIds == [] || cs.blockIds[0] != expected then None
    else if |cs.outputs| != |cs.outputMeta| then None
    else if |membership| != |cs.outputs| || |SetOf(cs.spentImages)| != |cs.spentImages| then None
    else if pool.None? then None
    else
      Some(Ledger(
        [], [], cs.blockIds, cs.timestamps, cs.work, cs.outputs, membership, cs.outputMeta,
        SetOf(cs.spentImages), cs.emitted, pool.value, cs.maturity, false))
  }
}
