/**
 Which snapshots are taken for genuine, stated outright, and what they are restored to
 (noct/core/src/chain.rs, noct/core/src/shielded_state.rs).
 */
module SnapshotRules {
  import opened Types
  import opened Data
  import opened Oracles
  import opened Ledgers
  import opened Formats
  import opened Wire
  import opened WellFormed
  import opened ShieldedPool
  import opened Snapshots
  import Consensus
  import Conservation
  import Pools
  import RestoredChains
  import TxRules

  // --- the shielded half ---------------------------------------------------

  /** Every node a field element, at most 32 ommers. */
  predicate FrontierFitsTree(lib: TreeLibrary, f: Frontier) {
    lib.nodeOk(f.leaf) && |f.ommers| <= 32 && forall i :: 0 <= i < |f.ommers| ==> lib.nodeOk(f.ommers[i])
  }

  /** The tree is put together from its frontier. */
  predicate SpellsTree(lib: TreeLibrary, frontier: Option<Frontier>, tree: seq<Bytes32>) {
    match frontier
    case None => tree == []
    case Some(f) => FrontierFitsTree(lib, f) && lib.rebuild(f) == Some(tree)
  }

  /** Totals, anchors and queue as listed, the nullifiers in any order. */
  predicate SpellsLists(fields: PoolFields, p: PoolState) {
    var (ring, (shielded, (anchors, (nullifiers, queue)))) := fields.1.1;
    && p.totals == Pools.Totals(ring, shielded) && p.anchors == anchors && p.nullifiers == SetOf(nullifiers)
    && |p.pending| == |queue|
    && forall i :: 0 <= i < |queue| ==> p.pending[i].height == queue[i].0 && p.pending[i].note == queue[i].1
  }

  /** These fields spell this state. */
  predicate Spells(lib: TreeLibrary, fields: PoolFields, p: PoolState) {
    SpellsTree(lib, fields.1.0, p.tree) && SpellsLists(fields, p)
  }

  /** What a decoded state meets: version 1, no count too large, and the newest anchor is the tree's root. */
  predicate Accepted(o: Crypto, fields: PoolFields, p: PoolState) {
    && fields.0 == 1 && |p.anchors| <= 100 && |p.pending| <= 100 && |fields.1.1.1.1.1.0| < TWO_32
    && if p.anchors == [] then p.tree == [] else p.anchors[|p.anchors| - 1] == o.treeRoot(p.tree)
  }

  lemma {:induction false} FrontierFitsIff(lib: TreeLibrary, f: Frontier)
    ensures FrontierF(lib).fits(f) <==> FrontierFitsTree(lib, f)
  {
    NumbersFit();
    var node := Checked(Array32F, lib.nodeOk, BadPoint);
    forall x: Bytes32
      ensures node.fits(x) <==> lib.nodeOk(x)
    {
      Array32Fits(x);
    }
    var ommers := Counted(4, TREE_DEPTH, node);
    CountedFits(TREE_DEPTH, node, f.ommers);
    PairFits(node, ommers, f.leaf, f.ommers);
    PairFits(U64F, Pair(node, ommers), f.position, (f.leaf, f.ommers));
    assert BuildFrontier(FrontierParts(f)) == f;
    MappedFits(Pair(U64F, Pair(node, ommers)), BuildFrontier, FrontierParts, f);
  }

  lemma {:induction false} LongNullifiers(nullifiers: seq<Bytes32>)
    requires |nullifiers| >= TWO_32
    ensures !NullifiersF.fits(nullifiers)
  {
    LittleEndian.Widths();
  }

  lemma {:induction false} ListsFitIff(anchors: seq<Bytes32>, nullifiers: seq<Bytes32>, queue: seq<QueueEntry>)
    ensures AnchorsF.fits(anchors) <==> |anchors| <= 100
    ensures NullifiersF.fits(nullifiers) <==> |nullifiers| < TWO_32
    ensures PendingF.fits(queue) <==> |queue| <= 100
  {
    if |anchors| <= 100 {
      HashesFitCount(100, anchors);
    } else {
      CountedFits(100, Array32F, anchors);
    }
    if |nullifiers| < TWO_32 {
      NullifiersFit(nullifiers);
    } else {
      LongNullifiers(nullifiers);
    }
    if |queue| <= 100 {
      PendingFits(queue);
    } else {
      CountedFits(100, QueueEntryF, queue);
    }
  }

  lemma {:induction false} FieldsFitIff(lib: TreeLibrary, x: PoolFields)
    ensures PoolF(lib).fits(x) <==>
              && x.0 == 1 && (x.1.0.Some? ==> FrontierFitsTree(lib, x.1.0.value))
              && |x.1.1.1.1.0| <= 100 && |x.1.1.1.1.1.0| < TWO_32 && |x.1.1.1.1.1.1| <= 100
  {
    NumbersFit();
    OptionFits(FrontierF(lib), x.1.0);
    if x.1.0.Some? {
      FrontierFitsIff(lib, x.1.0.value);
    }
    ListsFitIff(x.1.1.1.1.0, x.1.1.1.1.1.0, x.1.1.1.1.1.1);
    SevenFit(StateVersionF, OptionF(FrontierF(lib)), Wire.U64F, Wire.U64F, AnchorsF, NullifiersF, PendingF, x);
  }

  lemma {:induction false} ListsSpell(fields: PoolFields, tree: seq<Bytes32>, p: PoolState)
    ensures PoolOf(tree, fields) == p <==> p.tree == tree && SpellsLists(fields, p)
  {
    if SpellsLists(fields, p) {
      assert Queue(fields.1.1.1.1.1.1) == p.pending;
    }
  }

  lemma {:induction false} TreeSpells(lib: TreeLibrary, fields: PoolFields, p: PoolState)
    requires fields.1.0.Some? ==> FrontierFitsTree(lib, fields.1.0.value)
    ensures (if fields.1.0.None? then Some([]) else lib.rebuild(fields.1.0.value)) == Some(p.tree) <==>
              SpellsTree(lib, fields.1.0, p.tree)
  {
  }

  lemma {:induction false} FromSpelled(o: Crypto, lib: TreeLibrary, fields: PoolFields, p: PoolState)
    requires fields.0 == 1 && |fields.1.1.1.1.0| <= 100 && |fields.1.1.1.1.1.0| < TWO_32
    requires |fields.1.1.1.1.1.1| <= 100
    ensures PoolFromFields(o, lib, fields) == Some(p) <==>
              && (if fields.1.0.None? then Some([]) else lib.rebuild(fields.1.0.value)) == Some(p.tree)
              && SpellsLists(fields, p) && Accepted(o, fields, p)
  {
    var tree := if fields.1.0.None? then Some([]) else lib.rebuild(fields.1.0.value);
    if tree.Some? {
      ListsSpell(fields, tree.value, p);
    }
  }

  lemma {:induction false} FieldsSpell(o: Crypto, lib: TreeLibrary, fields: PoolFields, p: PoolState)
    requires PoolF(lib).fits(fields)
    ensures PoolFromFields(o, lib, fields) == Some(p) <==> Spells(lib, fields, p) && Accepted(o, fields, p)
  {
    FieldsFitIff(lib, fields);
    TreeSpells(lib, fields, p);
    FromSpelled(o, lib, fields, p);
  }

  lemma {:induction false} DecodedSpells(o: Crypto, lib: TreeLibrary, bytes: seq<Byte>, p: PoolState)
    returns (fields: PoolFields)
    requires PoolFromBytes(o, lib, bytes) == Some(p)
    ensures bytes == PoolF(lib).write(fields) && Spells(lib, fields, p) && Accepted(o, fields, p)
  {
    PoolExact(lib);
    fields := DecodeAll(PoolF(lib), bytes).value;
    DecodesExactly(PoolF(lib), fields, bytes);
    FieldsSpell(o, lib, fields, p);
  }

  lemma {:induction false} SpelledDecodes(o: Crypto, lib: TreeLibrary, fields: PoolFields, p: PoolState)
    requires Spells(lib, fields, p) && Accepted(o, fields, p)
    ensures PoolFromBytes(o, lib, PoolF(lib).write(fields)) == Some(p)
  {
    PoolExact(lib);
    FieldsFitIff(lib, fields);
    DecodesExactly(PoolF(lib), fields, PoolF(lib).write(fields));
    FieldsSpell(o, lib, fields, p);
  }

  /** Bytes decode to a state exactly if they are the writing of fields that spell it and are accepted. */
  lemma {:induction false} PoolFromBytesIff(o: Crypto, lib: TreeLibrary, bytes: seq<Byte>, p: PoolState)
    ensures PoolFromBytes(o, lib, bytes) == Some(p) <==>
              exists fields :: bytes == PoolF(lib).write(fields) && Spells(lib, fields, p) && Accepted(o, fields, p)
  {
    if PoolFromBytes(o, lib, bytes) == Some(p) {
      var fields := DecodedSpells(o, lib, bytes, p);
    }
    forall fields | bytes == PoolF(lib).write(fields) && Spells(lib, fields, p) && Accepted(o, fields, p)
      ensures PoolFromBytes(o, lib, bytes) == Some(p)
    {
      SpelledDecodes(o, lib, fields, p);
    }
  }

  // --- the chain state -----------------------------------------------------

  lemma {:induction false} RepeatFound<T>(xs: seq<T>)
    requires !Distinct(xs)
    ensures |SetOf(xs)| < |xs|
  {
    assert xs == [xs[0]] + xs[1..];
    if xs[0] in xs[1..] {
      assert SetOf(xs) == SetOf(xs[1..]);
      RestoredChains.SetIsNoLarger(xs[1..]);
    } else {
      RepeatFound(xs[1..]);
      assert SetOf(xs) == {xs[0]} + SetOf(xs[1..]);
    }
  }

  lemma {:induction false} RepeatsShrink<T>(xs: seq<T>)
    ensures |SetOf(xs)| == |xs| <==> TxRules.AllDiffer(xs)
  {
    TxRules.DistinctIff(xs);
    if Distinct(xs) {
      RestoredChains.DistinctCount(xs);
    } else {
      RepeatFound(xs);
    }
  }

  /** A state of this network, with a column entry for each output, no repeats, and a shielded half that decodes. */
  ghost predicate Restorable(codec: SnapshotCodec, expected: Bytes32, cs: ChainState) {
    && cs.genesis == expected && cs.blockIds != [] && cs.blockIds[0] == expected
    && |cs.outputs| == |cs.outputMeta| && TxRules.AllDiffer(cs.outputs) && TxRules.AllDiffer(cs.spentImages)
    && codec.poolFrom(cs.shielded).Some?
  }

  /** Every kept column as it was, the index rebuilt, no history. */
  ghost predicate RestoredTo(codec: SnapshotCodec, cs: ChainState, s: Ledger) {
    && s.blocks == [] && s.undos == [] && !s.prune
    && s.ids == cs.blockIds && s.timestamps == cs.timestamps && |s.work| == |cs.work|
    && (forall i :: 0 <= i < |s.work| ==> s.work[i] == cs.work[i])
    && s.outputs == cs.outputs && s.meta == cs.outputMeta && Conservation.IndexIsExact(s.outputs, s.membership)
    && s.spent == SetOf(cs.spentImages) && s.emitted == cs.emitted && s.maturity == cs.maturity
    && Some(s.shielded) == codec.poolFrom(cs.shielded)
  }

  lemma {:induction false} FreshIndex(outputs: seq<RingMember>)
    ensures |Indexed(map[], 0, outputs)| == |outputs| <==> TxRules.AllDiffer(outputs)
    ensures TxRules.AllDiffer(outputs) ==> Conservation.IndexIsExact(outputs, Indexed(map[], 0, outputs))
  {
    var index := Indexed(map[], 0, outputs);
    Consensus.IndexedDomain(map[], 0, outputs);
    RepeatsShrink(outputs);
    assert index.Keys == SetOf(outputs) && |index| == |index.Keys|;
    if TxRules.AllDiffer(outputs) {
      TxRules.DistinctIff(outputs);
      Conservation.IndexedExtends([], map[], outputs);
      assert [] + outputs == outputs;
    }
  }

  /** A snapshot is restored exactly if it is restorable, and then to its own columns. */
  lemma {:induction false} FromStateIff(codec: SnapshotCodec, expected: Bytes32, cs: ChainState)
    ensures FromState(codec, expected, cs).Some? <==> Restorable(codec, expected, cs)
    ensures FromState(codec, expected, cs).Some? ==> RestoredTo(codec, cs, FromState(codec, expected, cs).value)
  {
    FreshIndex(cs.outputs);
    RepeatsShrink(cs.spentImages);
  }

  lemma {:induction false} VersionRead(bytes: seq<Byte>)
    requires StateVersionF.read(bytes).Ok?
    ensures bytes != [] && bytes[0] == 1
  {
    StateVersionExact();
    LittleEndian.Widths();
    var (v, rest) := StateVersionF.read(bytes).value;
    assert bytes == StateVersionF.write(v) + rest;
  }

  /** A chain state of any other version than 1, or none, is refused. */
  lemma {:induction false} OtherVersionsAreRefused(bytes: seq<Byte>)
    requires bytes == [] || bytes[0] != 1
    ensures Decode(bytes) == None
  {
    if StateVersionF.read(bytes).Ok? {
      VersionRead(bytes);
    }
  }
}
