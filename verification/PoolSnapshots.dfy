/**
 `ShieldedState::to_bytes` and `from_bytes` as they run, loop by loop and field by field
 (noct/core/src/shielded_state.rs), proved to write and read the format of `Snapshots`.
 */
module PoolSnapshots {
  import opened Types
  import opened LittleEndian
  import opened Formats
  import opened Wire
  import opened Encoders
  import opened Readers
  import opened WireReaders
  import opened Snapshots
  import opened Oracles
  import opened ShieldedPool
  import opened Pools

  // --- writing -------------------------------------------------------------

  function FrontierBytes(f: Frontier): seq<Byte> {
    ToLe(8, f.position) + (ArrayOf(f.leaf) + VecBytes(ArrayOf, f.ommers))
  }

  function TreeBytes(lib: TreeLibrary, tree: seq<Bytes32>): seq<Byte> {
    if tree == [] then [0] else [1] + FrontierBytes(lib.parts(tree))
  }

  function EntryBytes(e: QueueEntry): seq<Byte> {
    ToLe(8, e.0) + ArrayOf(e.1)
  }

  ghost function StateBytes(lib: TreeLibrary, p: PoolState): seq<Byte> {
    [1] + (TreeBytes(lib, p.tree) + (ToLe(8, p.totals.ring) + (ToLe(8, p.totals.shielded)
    + (VecBytes(ArrayOf, p.anchors) + (VecBytes(ArrayOf, Sorted(p.nullifiers))
    + VecBytes(EntryBytes, Entries(p.pending)))))))
  }

  /** The nullifiers, collected in whatever order the set gives them and sorted. */
  method SortNullifiers(s: set<Bytes32>) returns (xs: seq<Bytes32>)
    ensures xs == Sorted(s)
  {
    var rest := s;
    xs := [];
    while rest != {}
      invariant rest <= s && SetOf(xs) == s - rest && IsAscending(xs)
      decreases |rest|
    {
      var k :| k in rest;
      assert k !in xs by {
        assert k !in SetOf(xs);
      }
      PlacedSet(k, xs);
      PlacedAscending(k, xs);
      xs := Placed(k, xs);
      rest := rest - {k};
    }
    SortedIsUnique(xs, Sorted(s));
  }

  method WriteHashes(out: seq<Byte>, xs: seq<Bytes32>) returns (b: seq<Byte>)
    ensures b == out + VecBytes(ArrayOf, xs)
  {
    b := out + ToLe(4, |xs|);
    for i := 0 to |xs|
      invariant b == out + (ToLe(4, |xs|) + Concat(ArrayOf, xs[..i]))
    {
      ConcatSnoc(ArrayOf, xs, i);
      ItemAppended(out, ToLe(4, |xs|), Concat(ArrayOf, xs[..i]), ArrayOf(xs[i]));
      b := b + ArrayOf(xs[i]);
    }
    assert xs[..|xs|] == xs;
  }

  method WritePending(out: seq<Byte>, pending: seq<Queued>) returns (b: seq<Byte>)
    ensures b == out + VecBytes(EntryBytes, Entries(pending))
  {
    ghost var entries := Entries(pending);
    b := out + ToLe(4, |pending|);
    for i := 0 to |pending|
      invariant b == out + (ToLe(4, |entries|) + Concat(EntryBytes, entries[..i]))
    {
      ConcatSnoc(EntryBytes, entries, i);
      ItemAppended(out, ToLe(4, |entries|), Concat(EntryBytes, entries[..i]), EntryBytes(entries[i]));
      Encoders.Appended(b, ToLe(8, AsU64(pending[i].height)), ArrayOf(pending[i].note));
      b := b + ToLe(8, AsU64(pending[i].height));
      b := b + ArrayOf(pending[i].note);
    }
    assert entries[..|entries|] == entries;
  }

  method WriteTree(out: seq<Byte>, lib: TreeLibrary, tree: seq<Bytes32>) returns (b: seq<Byte>)
    ensures b == out + TreeBytes(lib, tree)
  {
    if tree == [] {
      return out + [0];
    }
    var f := lib.parts(tree);
    Encoders.Appended(out, [1], FrontierBytes(f));
    b := out + [1];
    Encoders.Appended(b, ToLe(8, f.position), ArrayOf(f.leaf) + VecBytes(ArrayOf, f.ommers));
    b := b + ToLe(8, f.position);
    Encoders.Appended(b, ArrayOf(f.leaf), VecBytes(ArrayOf, f.ommers));
    b := b + ArrayOf(f.leaf);
    b := WriteHashes(b, f.ommers);
  }

  /** `to_bytes`. */
  method ToBytes(lib: TreeLibrary, p: PoolState) returns (b: seq<Byte>)
    ensures b == StateBytes(lib, p)
  {
    ghost var pendingOn := VecBytes(EntryBytes, Entries(p.pending));
    ghost var nullifiersOn := VecBytes(ArrayOf, Sorted(p.nullifiers)) + pendingOn;
    ghost var anchorsOn := VecBytes(ArrayOf, p.anchors) + nullifiersOn;
    ghost var shieldedOn := ToLe(8, p.totals.shielded) + anchorsOn;
    ghost var ringOn := ToLe(8, p.totals.ring) + shieldedOn;
    b := [1];
    Encoders.Appended(b, TreeBytes(lib, p.tree), ringOn);
    b := WriteTree(b, lib, p.tree);
    Encoders.Appended(b, ToLe(8, p.totals.ring), shieldedOn);
    b := b + ToLe(8, p.totals.ring);
    Encoders.Appended(b, ToLe(8, p.totals.shielded), anchorsOn);
    b := b + ToLe(8, p.totals.shielded);
    Encoders.Appended(b, VecBytes(ArrayOf, p.anchors), nullifiersOn);
    b := WriteHashes(b, p.anchors);
    var nullifiers := SortNullifiers(p.nullifiers);
    Encoders.Appended(b, VecBytes(ArrayOf, nullifiers), pendingOn);
    b := WriteHashes(b, nullifiers);
    b := WritePending(b, p.pending);
  }

  lemma FrontierWritten(lib: TreeLibrary, f: Frontier)
    ensures FrontierF(lib).write(f) == FrontierBytes(f)
  {
    var node := Checked(Array32F, lib.nodeOk, BadPoint);
    var ommers := Counted(4, TREE_DEPTH, node);
    CountedWrites(4, TREE_DEPTH, node, ArrayOf, f.ommers);
    PairWrites(node, ommers, f.leaf, f.ommers);
    PairWrites(U64F, Pair(node, ommers), f.position, (f.leaf, f.ommers));
    MappedWrites(Pair(U64F, Pair(node, ommers)), BuildFrontier, FrontierParts, f);
  }

  lemma TreeWritten(lib: TreeLibrary, tree: seq<Bytes32>)
    ensures OptionF(FrontierF(lib)).write(TreePart(lib, tree)) == TreeBytes(lib, tree)
  {
    OptionWrites(FrontierF(lib), TreePart(lib, tree));
    if tree != [] {
      FrontierWritten(lib, lib.parts(tree));
    }
  }

  lemma {:induction false} VectorsWritten(p: PoolState)
    ensures AnchorsF.write(p.anchors) == VecBytes(ArrayOf, p.anchors)
    ensures NullifiersF.write(Sorted(p.nullifiers)) == VecBytes(ArrayOf, Sorted(p.nullifiers))
    ensures PendingF.write(Entries(p.pending)) == VecBytes(EntryBytes, Entries(p.pending))
  {
    var entries := Entries(p.pending);
    CountedWrites(4, ANCHOR_DEPTH, Array32F, ArrayOf, p.anchors);
    CountedWrites(4, TWO_32, Array32F, ArrayOf, Sorted(p.nullifiers));
    forall i | 0 <= i < |entries|
      ensures QueueEntryF.write(entries[i]) == EntryBytes(entries[i])
    {
      PairWrites(U64F, Array32F, entries[i].0, entries[i].1);
    }
    CountedWrites(4, ANCHOR_DEPTH, QueueEntryF, EntryBytes, entries);
  }

  /** The loops write what the format writes, so the round trip is theirs. */
  lemma {:induction false} PoolWritten(lib: TreeLibrary, p: PoolState)
    ensures PoolBytes(lib, p) == StateBytes(lib, p)
  {
    var x := FieldsOf(lib, p);
    OneByte(1);
    TreeWritten(lib, p.tree);
    VectorsWritten(p);
    SixWrite(OptionF(FrontierF(lib)), U64F, U64F, AnchorsF, NullifiersF, PendingF, x.1);
    PairWrites(StateVersionF,
      Pair(OptionF(FrontierF(lib)), Pair(U64F, Pair(U64F, Pair(AnchorsF, Pair(NullifiersF, PendingF))))), x.0, x.1);
  }

  // --- reading -------------------------------------------------------------

  /** A tree node: 32 bytes that must be a field element. */
  method ReadNode(cur: Cursor, lib: TreeLibrary) returns (r: Result<Bytes32, WireError>)
    modifies cur
    ensures Outcome(Checked(Array32F, lib.nodeOk, BadPoint).read(old(cur.left)), r, cur.left)
  {
    InsideChecked(Array32F, lib.nodeOk, BadPoint, cur.left);
    r := cur.Field(Array32F);
    if r.Ok? && !lib.nodeOk(r.value) {
      r := Err(BadPoint);
    }
  }

  method ReadOmmers(cur: Cursor, lib: TreeLibrary, n: nat) returns (r: Result<seq<Bytes32>, WireError>)
    modifies cur
    ensures Outcome(ReadItems(Checked(Array32F, lib.nodeOk, BadPoint), n, old(cur.left)), r, cur.left)
  {
    ghost var node := Checked(Array32F, lib.nodeOk, BadPoint);
    var ommers: seq<Bytes32> := [];
    ReadingStarts(node, n, cur.left);
    for i := 0 to n
      invariant Reading(node, n, old(cur.left), i, ommers, cur.left)
    {
      ghost var before := cur.left;
      var x := ReadNode(cur, lib);
      ReadingGoesOn(node, n, old(cur.left), i, ommers, before, x, cur.left);
      if x.Err? {
        return Err(x.error);
      }
      ommers := ommers + [x.value];
    }
    ReadingEnds(node, n, old(cur.left), ommers, cur.left);
    r := Ok(ommers);
  }

  /** Position, leaf, and at most one ommer a level: the bound is checked before any is read. */
  method ReadFrontier(cur: Cursor, lib: TreeLibrary) returns (r: Result<Frontier, WireError>)
    modifies cur
    ensures Outcome(FrontierF(lib).read(old(cur.left)), r, cur.left)
  {
    ghost var expected := FrontierF(lib).read(cur.left);
    ghost var node := Checked(Array32F, lib.nodeOk, BadPoint);
    ghost var f2 := Pair(node, Counted(4, TREE_DEPTH, node));
    InsideMapped(Pair(U64F, f2), BuildFrontier, FrontierParts, cur.left);
    AfterPair(expected, BuildFrontier, U64F, f2, cur.left);
    var position := cur.Field(U64F);
    if position.Err? {
      return Err(position.error);
    }
    ghost var build2 := (p: (Bytes32, seq<Bytes32>)) => BuildFrontier((position.value, p));
    AfterPair(expected, build2, node, Counted(4, TREE_DEPTH, node), cur.left);
    var leaf := ReadNode(cur, lib);
    if leaf.Err? {
      return Err(leaf.error);
    }
    CountedReads(TREE_DEPTH, node, cur.left);
    var n := cur.Count(TREE_DEPTH);
    if n.Err? {
      return Err(n.error);
    }
    var ommers := ReadOmmers(cur, lib, n.value);
    if ommers.Err? {
      return Err(ommers.error);
    }
    r := Ok(Frontier(position.value, leaf.value, ommers.value));
  }

  lemma InsideOption<T>(f: Format<T>, s: seq<Byte>)
    ensures var tag := ByteF.read(s);
            OptionF(f).read(s) ==
            if tag.Err? then Err(tag.error)
            else if tag.value.0 == 0 then Ok((None, tag.value.1))
            else if tag.value.0 != 1 then Err(BadTag)
            else
              var x := f.read(tag.value.1);
              if x.Err? then Err(x.error) else Ok((Some(x.value.0), x.value.1))
  {
  }

  method ReadTree(cur: Cursor, lib: TreeLibrary) returns (r: Result<Option<Frontier>, WireError>)
    modifies cur
    ensures Outcome(OptionF(FrontierF(lib)).read(old(cur.left)), r, cur.left)
  {
    InsideOption(FrontierF(lib), cur.left);
    var tag := cur.Field(ByteF);
    if tag.Err? {
      return Err(tag.error);
    }
    if tag.value == 0 {
      return Ok(None);
    }
    if tag.value != 1 {
      return Err(BadTag);
    }
    var f := ReadFrontier(cur, lib);
    r := if f.Ok? then Ok(Some(f.value)) else Err(f.error);
  }

  /** The same outcome for the list as for the set made of it. */
  ghost function Listing(r: Result<set<Bytes32>, WireError>, listed: seq<Bytes32>): Result<seq<Bytes32>, WireError> {
    match r
    case Ok(_) => Ok(listed)
    case Err(e) => Err(e)
  }

  lemma CountHasFourBytes(s: seq<Byte>)
    ensures Unsigned(4).read(s).Ok? ==> Unsigned(4).read(s).value.0 < TWO_32
  {
    Widths();
  }

  /** The nullifiers go into a set as they are read; `listed` are the same in reading order. */
  method ReadNullifierItems(cur: Cursor, n: nat)
    returns (r: Result<set<Bytes32>, WireError>, ghost listed: seq<Bytes32>)
    modifies cur
    ensures Outcome(ReadItems(Array32F, n, old(cur.left)), Listing(r, listed), cur.left)
    ensures r.Ok? ==> r.value == SetOf(listed)
  {
    listed := [];
    var nullifiers := {};
    ReadingStarts(Array32F, n, cur.left);
    for i := 0 to n
      invariant Reading(Array32F, n, old(cur.left), i, listed, cur.left)
      invariant nullifiers == SetOf(listed)
    {
      ghost var before := cur.left;
      var x := cur.Field(Array32F);
      ReadingGoesOn(Array32F, n, old(cur.left), i, listed, before, x, cur.left);
      if x.Err? {
        return Err(x.error), [];
      }
      nullifiers := nullifiers + {x.value};
      listed := listed + [x.value];
    }
    ReadingEnds(Array32F, n, old(cur.left), listed, cur.left);
    r := Ok(nullifiers);
  }

  /** Their count has no bound but its width. */
  method ReadNullifiers(cur: Cursor) returns (r: Result<set<Bytes32>, WireError>, ghost listed: seq<Bytes32>)
    modifies cur
    ensures Outcome(NullifiersF.read(old(cur.left)), Listing(r, listed), cur.left)
    ensures r.Ok? ==> r.value == SetOf(listed)
  {
    CountedReads(TWO_32, Array32F, cur.left);
    CountHasFourBytes(cur.left);
    var n := cur.Field(Unsigned(4));
    if n.Err? {
      return Err(n.error), [];
    }
    r, listed := ReadNullifierItems(cur, n.value);
  }

  method ReadEntry(cur: Cursor) returns (r: Result<QueueEntry, WireError>)
    modifies cur
    ensures Outcome(QueueEntryF.read(old(cur.left)), r, cur.left)
  {
    var height := cur.Field(U64F);
    if height.Err? {
      return Err(height.error);
    }
    var note := cur.Field(Array32F);
    if note.Err? {
      return Err(note.error);
    }
    r := Ok((height.value, note.value));
  }

  method ReadEntries(cur: Cursor, n: nat) returns (r: Result<seq<QueueEntry>, WireError>)
    modifies cur
    ensures Outcome(ReadItems(QueueEntryF, n, old(cur.left)), r, cur.left)
  {
    var entries: seq<QueueEntry> := [];
    ReadingStarts(QueueEntryF, n, cur.left);
    for i := 0 to n
      invariant Reading(QueueEntryF, n, old(cur.left), i, entries, cur.left)
    {
      ghost var before := cur.left;
      var x := ReadEntry(cur);
      ReadingGoesOn(QueueEntryF, n, old(cur.left), i, entries, before, x, cur.left);
      if x.Err? {
        return Err(x.error);
      }
      entries := entries + [x.value];
    }
    ReadingEnds(QueueEntryF, n, old(cur.left), entries, cur.left);
    r := Ok(entries);
  }

  /** The waiting rewards: one a block of the window at most, checked before any is read. */
  method ReadPending(cur: Cursor) returns (r: Result<seq<QueueEntry>, WireError>)
    modifies cur
    ensures Outcome(PendingF.read(old(cur.left)), r, cur.left)
  {
    CountedReads(ANCHOR_DEPTH, QueueEntryF, cur.left);
    var n := cur.Count(ANCHOR_DEPTH);
    if n.Err? {
      return Err(n.error);
    }
    r := ReadEntries(cur, n.value);
  }

  /** What follows the tree. */
  type Rest = (U64, (U64, (seq<Bytes32>, (seq<Bytes32>, seq<QueueEntry>))))

  const RestF: Format<Rest> := Pair(U64F, Pair(U64F, Pair(AnchorsF, Pair(NullifiersF, PendingF))))

  /** Totals, anchors, nullifiers and queue; the nullifiers also as the set they are kept in. */
  method ReadRest(cur: Cursor) returns (r: Result<(Totals, seq<Bytes32>, set<Bytes32>, seq<QueueEntry>), WireError>,
      ghost listed: seq<Bytes32>)
    modifies cur
    ensures var fields: Result<Rest, WireError> :=
              if r.Ok? then Ok((r.value.0.ring, (r.value.0.shielded, (r.value.1, (listed, r.value.3)))))
              else Err(r.error);
            Outcome(RestF.read(old(cur.left)), fields, cur.left)
    ensures r.Ok? ==> r.value.2 == SetOf(listed)
  {
    ghost var expected := RestF.read(cur.left);
    ghost var f4 := Pair(NullifiersF, PendingF);
    ghost var f3 := Pair(AnchorsF, f4);
    ghost var f2 := Pair(U64F, f3);
    ghost var build1 := (p: Rest) => p;
    AfterPair(expected, build1, U64F, f2, cur.left);
    listed := [];
    var ring := cur.Field(U64F);
    if ring.Err? {
      return Err(ring.error), [];
    }
    ghost var build2 := (p: (U64, (seq<Bytes32>, (seq<Bytes32>, seq<QueueEntry>)))) => build1((ring.value, p));
    AfterPair(expected, build2, U64F, f3, cur.left);
    var shielded := cur.Field(U64F);
    if shielded.Err? {
      return Err(shielded.error), [];
    }
    ghost var build3 := (p: (seq<Bytes32>, (seq<Bytes32>, seq<QueueEntry>))) => build2((shielded.value, p));
    AfterPair(expected, build3, AnchorsF, f4, cur.left);
    var anchors := cur.Vec(ANCHOR_DEPTH, Array32F);
    if anchors.Err? {
      return Err(anchors.error), [];
    }
    ghost var build4 := (p: (seq<Bytes32>, seq<QueueEntry>)) => build3((anchors.value, p));
    AfterPair(expected, build4, NullifiersF, PendingF, cur.left);
    var nullifiers;
    nullifiers, listed := ReadNullifiers(cur);
    if nullifiers.Err? {
      return Err(nullifiers.error), [];
    }
    var pending := ReadPending(cur);
    if pending.Err? {
      return Err(pending.error), [];
    }
    r := Ok((Totals(ring.value, shielded.value), anchors.value, nullifiers.value, pending.value));
  }

  method ReadVersion(cur: Cursor) returns (r: Result<Byte, WireError>)
    modifies cur
    ensures Outcome(StateVersionF.read(old(cur.left)), r, cur.left)
    ensures r.Ok? ==> r.value == 1 && |cur.left| <= |old(cur.left)|
  {
    InsideChecked(ByteF, (v: Byte) => v == 1, BadTag, cur.left);
    r := cur.Field(ByteF);
    if r.Ok? && r.value != 1 {
      r := Err(BadTag);
    }
  }

  lemma WhatWasRead(o: Crypto, lib: TreeLibrary, bytes: seq<Byte>)
    ensures var read := PoolF(lib).read(bytes);
            PoolFromBytes(o, lib, bytes) ==
            if read.Err? || read.value.1 != [] then None else PoolFromFields(o, lib, read.value.0)
  {
  }

  /** `from_bytes`: nothing, or a state that agrees with itself. */
  method FromBytes(o: Crypto, lib: TreeLibrary, bytes: seq<Byte>) returns (r: Option<PoolState>)
    ensures r == PoolFromBytes(o, lib, bytes)
  {
    WhatWasRead(o, lib, bytes);
    ghost var expected := PoolF(lib).read(bytes);
    ghost var build1 := (p: PoolFields) => p;
    var cur := new Cursor(bytes);
    AfterPair(expected, build1, StateVersionF, Pair(OptionF(FrontierF(lib)), RestF), cur.left);
    var version := ReadVersion(cur);
    if version.Err? {
      return None;
    }
    ghost var build2 := (p: (Option<Frontier>, Rest)) => build1((version.value, p));
    AfterPair(expected, build2, OptionF(FrontierF(lib)), RestF, cur.left);
    var frontier := ReadTree(cur, lib);
    if frontier.Err? {
      return None;
    }
    var tree := if frontier.value.None? then Some([]) else lib.rebuild(frontier.value.value);
    var rest, listed := ReadRest(cur);
    if rest.Err? || tree.None? || cur.left != [] {
      return None;
    }
    var (totals, anchors, nullifiers, pending) := rest.value;
    var p := PoolState(tree.value, nullifiers, anchors, totals, Queue(pending));
    r := if SelfConsistent(o, p) then Some(p) else None;
  }
}
