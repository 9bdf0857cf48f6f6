/**
 `ChainState::decode` as it runs: each list is taken from the buffer as one block of
 fixed-width records, after its length is checked against what is left, and then cut up
 (noct/core/src/chain.rs). It is proved to read the format of `Snapshots`.
 */
module StateReaders {
  import opened Types
  import opened Data
  import opened Ledgers
  import opened LittleEndian
  import opened Formats
  import opened Wire
  import opened Readers
  import opened WireReaders
  import opened Snapshots
  import PoolSnapshots

  // --- records of fixed width ----------------------------------------------

  /** The format takes `w` bytes, whatever they are, and `parse` is what it makes of them. */
  ghost predicate FixedWidth<T(!new)>(f: Format<T>, w: nat, parse: seq<Byte> -> T) {
    forall s: seq<Byte> {:trigger f.read(s)} ::
      f.read(s) == if |s| < w then Err(Truncated) else Ok((parse(s[..w]), s[w..]))
  }

  lemma {:induction false} TooFewBytes<T(!new)>(f: Format<T>, w: nat, parse: seq<Byte> -> T, n: nat, s: seq<Byte>)
    requires FixedWidth(f, w, parse) && |s| < n * w
    ensures ReadItems(f, n, s).Err?
    decreases n
  {
    if |s| >= w {
      assert n * w == (n - 1) * w + w;
      TooFewBytes(f, w, parse, n - 1, s[w..]);
    }
  }

  /** The k-th record of a block. */
  function Chunk(block: seq<Byte>, w: nat, k: nat): seq<Byte>
    requires k * w + w <= |block|
  {
    block[k * w..k * w + w]
  }

  lemma ChunkFits(n: nat, w: nat, k: nat)
    requires k < n
    ensures k * w + w <= n * w
  {
    assert n * w == (k + 1) * w + (n - k - 1) * w;
  }

  /** The next record of a block that other bytes follow. */
  lemma {:induction false} NextChunk<T(!new)>(
    f: Format<T>, w: nat, parse: seq<Byte> -> T, block: seq<Byte>, n: nat, k: nat, rest: seq<Byte>)
    requires FixedWidth(f, w, parse) && k < n && |block| == n * w
    ensures k * w + w == (k + 1) * w <= |block|
    ensures f.read(block[k * w..] + rest) == Ok((parse(Chunk(block, w, k)), block[(k + 1) * w..] + rest))
  {
    ChunkFits(n, w, k);
    var s := block[k * w..] + rest;
    assert s[..w] == Chunk(block, w, k);
    assert s[w..] == block[k * w + w..] + rest;
  }

  const HEADER_RECORD: nat := 56
  const OUTPUT_RECORD: nat := 73
  const HASH_RECORD: nat := 32

  const HeaderF: Format<HeaderRecord> := Pair(Array32F, Pair(U64F, U128F))
  const OutputF: Format<OutputRecord> := Pair(Array32F, Pair(Array32F, Pair(U64F, FlagF)))

  lemma {:induction false} PairIsFixed<A(!new), B(!new)>(
    f: Format<A>, m: nat, p: seq<Byte> -> A, g: Format<B>, n: nat, q: seq<Byte> -> B, parse: seq<Byte> -> (A, B))
    requires FixedWidth(f, m, p) && FixedWidth(g, n, q)
    requires forall r: seq<Byte> :: |r| == m + n ==> parse(r) == (p(r[..m]), q(r[m..]))
    ensures FixedWidth(Pair(f, g), m + n, parse)
  {
    forall s: seq<Byte>
      ensures Pair(f, g).read(s) ==
              if |s| < m + n then Err(Truncated) else Ok((parse(s[..m + n]), s[m + n..]))
    {
      if |s| >= m {
        assert f.read(s) == Ok((p(s[..m]), s[m..])) && g.read(s[m..]) == g.read(s[m..]);
      }
      if |s| >= m + n {
        var r := s[..m + n];
        assert r[..m] == s[..m] && r[m..] == s[m..][..n] && s[m..][n..] == s[m + n..];
      }
    }
  }

  function ParseU64(r: seq<Byte>): U64 { AsU64(FromLe(r)) }

  function ParseU128(r: seq<Byte>): U128 { AsU128(FromLe(r)) }

  function ParseFlag(r: seq<Byte>): bool { r != [] && r[0] != 0 }

  lemma ScalarsAreFixed()
    ensures FixedWidth(U64F, 8, ParseU64) && FixedWidth(U128F, 16, ParseU128)
    ensures FixedWidth(Array32F, HASH_RECORD, NumberOf) && FixedWidth(FlagF, 1, ParseFlag)
  {
  }

  function ParseHeader(r: seq<Byte>): HeaderRecord {
    if |r| == HEADER_RECORD then (NumberOf(r[..32]), (ParseU64(r[32..40]), ParseU128(r[40..56]))) else (0, (0, 0))
  }

  function ParseOutput(r: seq<Byte>): OutputRecord {
    if |r| == OUTPUT_RECORD then
      (NumberOf(r[..32]), (NumberOf(r[32..64]), (ParseU64(r[64..72]), ParseFlag(r[72..]))))
    else (0, (0, (0, false)))
  }

  /** What follows the id of a header. */
  function ParseTimeAndWork(r: seq<Byte>): (U64, U128) {
    if |r| == 24 then (ParseU64(r[..8]), ParseU128(r[8..])) else (0, 0)
  }

  lemma HeaderParts(r: seq<Byte>)
    requires |r| == HEADER_RECORD
    ensures ParseHeader(r) == (NumberOf(r[..32]), ParseTimeAndWork(r[32..]))
  {
    assert r[32..][..8] == r[32..40] && r[32..][8..] == r[40..56];
  }

  lemma {:induction false} HeadersAreFixed()
    ensures FixedWidth(HeaderF, HEADER_RECORD, ParseHeader)
  {
    ScalarsAreFixed();
    PairIsFixed(U64F, 8, ParseU64, U128F, 16, ParseU128, ParseTimeAndWork);
    forall r: seq<Byte> | |r| == HEADER_RECORD
      ensures ParseHeader(r) == (NumberOf(r[..32]), ParseTimeAndWork(r[32..]))
    {
      HeaderParts(r);
    }
    PairIsFixed(Array32F, 32, NumberOf, Pair(U64F, U128F), 24, ParseTimeAndWork, ParseHeader);
  }

  /** Height and flag of an output. */
  function ParseMeta(r: seq<Byte>): (U64, bool) {
    if |r| == 9 then (ParseU64(r[..8]), ParseFlag(r[8..])) else (0, false)
  }

  /** What follows the key of an output. */
  function ParseTail(r: seq<Byte>): (Bytes32, (U64, bool)) {
    if |r| == 41 then (NumberOf(r[..32]), ParseMeta(r[32..])) else (0, (0, false))
  }

  lemma {:induction false} OutputTailIsFixed()
    ensures FixedWidth(Pair(Array32F, Pair(U64F, FlagF)), 41, ParseTail)
  {
    ScalarsAreFixed();
    PairIsFixed(U64F, 8, ParseU64, FlagF, 1, ParseFlag, ParseMeta);
    PairIsFixed(Array32F, 32, NumberOf, Pair(U64F, FlagF), 9, ParseMeta, ParseTail);
  }

  lemma OutputParts(r: seq<Byte>)
    requires |r| == OUTPUT_RECORD
    ensures ParseOutput(r) == (NumberOf(r[..32]), ParseTail(r[32..]))
  {
    assert r[32..][..32] == r[32..64] && r[32..][32..] == r[64..];
    assert r[64..][..8] == r[64..72] && r[64..][8..] == r[72..];
  }

  lemma {:induction false} OutputsAreFixed()
    ensures FixedWidth(OutputF, OUTPUT_RECORD, ParseOutput)
  {
    ScalarsAreFixed();
    OutputTailIsFixed();
    forall r: seq<Byte> | |r| == OUTPUT_RECORD
      ensures ParseOutput(r) == (NumberOf(r[..32]), ParseTail(r[32..]))
    {
      OutputParts(r);
    }
    PairIsFixed(Array32F, 32, NumberOf, Pair(Array32F, Pair(U64F, FlagF)), 41, ParseTail, ParseOutput);
  }

  // --- blocks of records ---------------------------------------------------

  lemma {:induction false} LongCount<T>(f: Format<T>, s: seq<Byte>)
    ensures var n := Unsigned(8).read(s);
            n.Ok? ==> n.value.0 < TWO_64 && Counted(8, TWO_64, f).read(s) == ReadItems(f, n.value.0, n.value.1)
    ensures Unsigned(8).read(s).Err? ==> Counted(8, TWO_64, f).read(s).Err?
  {
    Widths();
  }

  /** An 8-byte count, and as many records in one piece; a product beyond 64 bits is refused. */
  method TakeRecords(cur: Cursor, w: nat) returns (r: Option<(nat, seq<Byte>)>)
    requires |cur.left| < TWO_64
    modifies cur
    ensures r.Some? ==> |r.value.1| == r.value.0 * w
                        && Unsigned(8).read(old(cur.left)) == Ok((r.value.0, r.value.1 + cur.left))
    ensures r.None? ==> var n := Unsigned(8).read(old(cur.left)); n.Ok? ==> |n.value.1| < n.value.0 * w
    ensures r.Some? ==> |cur.left| <= |old(cur.left)|
  {
    var n := cur.Field(Unsigned(8));
    if n.Err? {
      return None;
    }
    if n.value * w >= TWO_64 {
      return None;
    }
    ghost var start := cur.left;
    var block := cur.Field(Raw(n.value * w));
    if block.Err? {
      return None;
    }
    assert start == block.value + cur.left;
    r := Some((n.value, block.value));
  }

  /** Where no block could be taken, the list does not read. */
  lemma {:induction false} NoRecords<T(!new)>(f: Format<T>, w: nat, parse: seq<Byte> -> T, s: seq<Byte>)
    requires FixedWidth(f, w, parse)
    requires var n := Unsigned(8).read(s); n.Ok? ==> |n.value.1| < n.value.0 * w
    ensures Counted(8, TWO_64, f).read(s).Err?
  {
    LongCount(f, s);
    var n := Unsigned(8).read(s);
    if n.Ok? {
      TooFewBytes(f, w, parse, n.value.0, n.value.1);
    }
  }

  /** One record of a block more. */
  lemma {:induction false} RecordGoesOn<T(!new)>(
    f: Format<T>, w: nat, parse: seq<Byte> -> T, block: seq<Byte>, n: nat, k: nat, out: seq<T>, rest: seq<Byte>)
    requires FixedWidth(f, w, parse) && k < n && |block| == n * w && k * w <= |block|
    requires Reading(f, n, block + rest, k, out, block[k * w..] + rest)
    ensures k * w + w == (k + 1) * w <= |block|
    ensures Reading(f, n, block + rest, k + 1, out + [parse(Chunk(block, w, k))], block[(k + 1) * w..] + rest)
  {
    NextChunk(f, w, parse, block, n, k, rest);
    var x: Result<T, WireError> := Ok(parse(Chunk(block, w, k)));
    ReadingGoesOn(f, n, block + rest, k, out, block[k * w..] + rest, x, block[(k + 1) * w..] + rest);
  }

  /** A block of n records, cut up. */
  ghost predicate IsCut<T>(parse: seq<Byte> -> T, w: nat, block: seq<Byte>, n: nat, out: seq<T>) {
    |block| == n * w && |out| == n &&
    forall k :: 0 <= k < n ==> k * w + w <= |block| && out[k] == parse(Chunk(block, w, k))
  }

  lemma {:induction false} CutSoFar<T(!new)>(
    f: Format<T>, w: nat, parse: seq<Byte> -> T, block: seq<Byte>, n: nat, out: seq<T>, rest: seq<Byte>, k: nat)
    requires FixedWidth(f, w, parse) && IsCut(parse, w, block, n, out) && k <= n
    ensures k * w <= |block| && Reading(f, n, block + rest, k, out[..k], block[k * w..] + rest)
  {
    if k == 0 {
      assert block[0..] == block;
      ReadingStarts(f, n, block + rest);
    } else {
      CutSoFar(f, w, parse, block, n, out, rest, k - 1);
      RecordGoesOn(f, w, parse, block, n, k - 1, out[..k - 1], rest);
      assert out[..k] == out[..k - 1] + [out[k - 1]];
    }
  }

  /** A block cut up is the list read item by item. */
  lemma {:induction false} CutIsRead<T(!new)>(
    f: Format<T>, w: nat, parse: seq<Byte> -> T, block: seq<Byte>, n: nat, out: seq<T>, rest: seq<Byte>)
    requires FixedWidth(f, w, parse) && IsCut(parse, w, block, n, out)
    ensures ReadItems(f, n, block + rest) == Ok((out, rest))
  {
    CutSoFar(f, w, parse, block, n, out, rest, n);
    assert out[..n] == out && block[n * w..] + rest == rest;
    ReadingEnds(f, n, block + rest, out, rest);
  }

  // --- the lists of a chain state ------------------------------------------

  /** The three columns of the headers, side by side. */
  function HeaderRows(ids: seq<Bytes32>, timestamps: seq<U64>, work: seq<U128>): (r: seq<HeaderRecord>)
    requires |ids| == |timestamps| == |work|
    ensures |r| == |ids|
  {
    seq(|ids|, i requires 0 <= i < |ids| => (ids[i], (timestamps[i], work[i])))
  }

  function OutputRows(outputs: seq<RingMember>, meta: seq<OutputMeta>): (r: seq<OutputRecord>)
    requires |outputs| == |meta|
    ensures |r| == |outputs|
  {
    seq(|outputs|, i requires 0 <= i < |outputs| =>
      (outputs[i].key, (outputs[i].commitment, (meta[i].height, meta[i].coinbase))))
  }

  /** The header block cut into 56-byte records, each into id, timestamp and work. */
  method CutHeaders(block: seq<Byte>, n: nat)
    returns (ids: seq<Bytes32>, timestamps: seq<U64>, work: seq<U128>)
    requires |block| == n * HEADER_RECORD
    ensures |ids| == |timestamps| == |work|
    ensures IsCut(ParseHeader, HEADER_RECORD, block, n, HeaderRows(ids, timestamps, work))
  {
    ids, timestamps, work := [], [], [];
    for k := 0 to n
      invariant |ids| == |timestamps| == |work| == k
      invariant forall j :: 0 <= j < k ==>
                  (ids[j], (timestamps[j], work[j])) == ParseHeader(Chunk(block, HEADER_RECORD, j))
    {
      var r := Chunk(block, HEADER_RECORD, k);
      ids := ids + [NumberOf(r[..32])];
      timestamps := timestamps + [AsU64(FromLe(r[32..40]))];
      work := work + [AsU128(FromLe(r[40..56]))];
    }
  }

  /** The output block cut into 73-byte records; any flag byte but zero is a coinbase. */
  method CutOutputs(block: seq<Byte>, n: nat) returns (outputs: seq<RingMember>, meta: seq<OutputMeta>)
    requires |block| == n * OUTPUT_RECORD
    ensures |outputs| == |meta|
    ensures IsCut(ParseOutput, OUTPUT_RECORD, block, n, OutputRows(outputs, meta))
  {
    outputs, meta := [], [];
    for k := 0 to n
      invariant |outputs| == |meta| == k
      invariant forall j :: 0 <= j < k ==>
                  (outputs[j].key, (outputs[j].commitment, (meta[j].height, meta[j].coinbase))) ==
                  ParseOutput(Chunk(block, OUTPUT_RECORD, j))
    {
      var r := Chunk(block, OUTPUT_RECORD, k);
      outputs := outputs + [RingMember(NumberOf(r[..32]), NumberOf(r[32..64]))];
      meta := meta + [OutputMeta(AsU64(FromLe(r[64..72])), r[72] != 0)];
    }
  }

  method CutImages(block: seq<Byte>, n: nat) returns (images: seq<Bytes32>)
    requires |block| == n * HASH_RECORD
    ensures IsCut(NumberOf, HASH_RECORD, block, n, images)
  {
    images := [];
    for k := 0 to n
      invariant |images| == k
      invariant forall j :: 0 <= j < k ==> images[j] == NumberOf(Chunk(block, HASH_RECORD, j))
    {
      images := images + [NumberOf(Chunk(block, HASH_RECORD, k))];
    }
  }

  /** What a list format reads, as an option: which error it is does not matter to the caller. */
  ghost predicate Agrees<T>(expected: Read<T>, r: Option<T>, left: seq<Byte>) {
    match expected
    case Err(_) => r.None?
    case Ok((x, rest)) => r == Some(x) && left == rest
  }

  /** A list whose block was taken and cut up. */
  lemma {:induction false} TakenIsRead<T(!new)>(
    f: Format<T>, w: nat, parse: seq<Byte> -> T, s: seq<Byte>, n: nat, block: seq<Byte>, out: seq<T>, rest: seq<Byte>)
    requires FixedWidth(f, w, parse) && IsCut(parse, w, block, n, out)
    requires Unsigned(8).read(s) == Ok((n, block + rest))
    ensures Counted(8, TWO_64, f).read(s) == Ok((out, rest))
  {
    LongCount(f, s);
    CutIsRead(f, w, parse, block, n, out, rest);
  }

  datatype HeaderColumns = HeaderColumns(ids: seq<Bytes32>, timestamps: seq<U64>, work: seq<U128>)
  {
    predicate Even() {
      |ids| == |timestamps| == |work|
    }

    function Rows(): seq<HeaderRecord>
      requires Even()
    {
      HeaderRows(ids, timestamps, work)
    }
  }

  datatype OutputColumns = OutputColumns(outputs: seq<RingMember>, meta: seq<OutputMeta>)
  {
    predicate Even() {
      |outputs| == |meta|
    }

    function Rows(): seq<OutputRecord>
      requires Even()
    {
      OutputRows(outputs, meta)
    }
  }

  method ReadHeaders(cur: Cursor) returns (r: Option<HeaderColumns>)
    requires |cur.left| < TWO_64
    modifies cur
    ensures r.Some? ==> r.value.Even() && |cur.left| < TWO_64
    ensures Agrees(HeadersF.read(old(cur.left)), if r.Some? then Some(r.value.Rows()) else None, cur.left)
  {
    ghost var start := cur.left;
    HeadersAreFixed();
    var taken := TakeRecords(cur, HEADER_RECORD);
    if taken.None? {
      NoRecords(HeaderF, HEADER_RECORD, ParseHeader, start);
      return None;
    }
    var (n, block) := taken.value;
    var ids, timestamps, work := CutHeaders(block, n);
    TakenIsRead(HeaderF, HEADER_RECORD, ParseHeader, start, n, block, HeaderRows(ids, timestamps, work), cur.left);
    r := Some(HeaderColumns(ids, timestamps, work));
  }

  method ReadOutputs(cur: Cursor) returns (r: Option<OutputColumns>)
    requires |cur.left| < TWO_64
    modifies cur
    ensures r.Some? ==> r.value.Even() && |cur.left| < TWO_64
    ensures Agrees(OutputsF.read(old(cur.left)), if r.Some? then Some(r.value.Rows()) else None, cur.left)
  {
    ghost var start := cur.left;
    OutputsAreFixed();
    var taken := TakeRecords(cur, OUTPUT_RECORD);
    if taken.None? {
      NoRecords(OutputF, OUTPUT_RECORD, ParseOutput, start);
      return None;
    }
    var (n, block) := taken.value;
    var outputs, meta := CutOutputs(block, n);
    TakenIsRead(OutputF, OUTPUT_RECORD, ParseOutput, start, n, block, OutputRows(outputs, meta), cur.left);
    r := Some(OutputColumns(outputs, meta));
  }

  method ReadImages(cur: Cursor) returns (r: Option<seq<Bytes32>>)
    requires |cur.left| < TWO_64
    modifies cur
    ensures r.Some? ==> |cur.left| < TWO_64
    ensures Agrees(ImagesF.read(old(cur.left)), r, cur.left)
  {
    ghost var start := cur.left;
    ScalarsAreFixed();
    var taken := TakeRecords(cur, HASH_RECORD);
    if taken.None? {
      NoRecords(Array32F, HASH_RECORD, NumberOf, start);
      return None;
    }
    var (n, block) := taken.value;
    var images := CutImages(block, n);
    TakenIsRead(Array32F, HASH_RECORD, NumberOf, start, n, block, images, cur.left);
    r := Some(images);
  }

  lemma LongBlob(s: seq<Byte>)
    ensures var n := Unsigned(8).read(s);
            BlobF.read(s) == if n.Err? then Err(n.error) else Take(n.value.1, n.value.0)
  {
    Widths();
  }

  /** The shielded half: a length and as many bytes. */
  method ReadBlob(cur: Cursor) returns (r: Option<seq<Byte>>)
    modifies cur
    ensures Agrees(BlobF.read(old(cur.left)), r, cur.left)
  {
    LongBlob(cur.left);
    var n := cur.Field(Unsigned(8));
    if n.Err? {
      return None;
    }
    var bytes := cur.Field(Raw(n.value));
    r := if bytes.Ok? then Some(bytes.value) else None;
  }

  type Lists = (seq<HeaderRecord>, (seq<OutputRecord>, (seq<Bytes32>, seq<Byte>)))

  const ListsF: Format<Lists> := Pair(HeadersF, Pair(OutputsF, Pair(ImagesF, BlobF)))

  /** The lists, each into its columns. */
  method ReadLists(cur: Cursor)
    returns (r: Option<(HeaderColumns, OutputColumns, seq<Bytes32>, seq<Byte>)>)
    requires |cur.left| < TWO_64
    modifies cur
    ensures r.Some? ==> r.value.0.Even() && r.value.1.Even()
    ensures Agrees(ListsF.read(old(cur.left)),
                   if r.Some? then Some((r.value.0.Rows(), (r.value.1.Rows(), (r.value.2, r.value.3)))) else None,
                   cur.left)
  {
    ghost var expected := ListsF.read(cur.left);
    ghost var f3 := Pair(ImagesF, BlobF);
    ghost var f2 := Pair(OutputsF, f3);
    ghost var build1 := (p: Lists) => p;
    AfterPair(expected, build1, HeadersF, f2, cur.left);
    var headers := ReadHeaders(cur);
    if headers.None? {
      return None;
    }
    ghost var build2 := (p: (seq<OutputRecord>, (seq<Bytes32>, seq<Byte>))) => build1((headers.value.Rows(), p));
    AfterPair(expected, build2, OutputsF, f3, cur.left);
    var outputs := ReadOutputs(cur);
    if outputs.None? {
      return None;
    }
    ghost var build3 := (p: (seq<Bytes32>, seq<Byte>)) => build2((outputs.value.Rows(), p));
    AfterPair(expected, build3, ImagesF, BlobF, cur.left);
    var images := ReadImages(cur);
    if images.None? {
      return None;
    }
    var shielded := ReadBlob(cur);
    if shielded.None? {
      return None;
    }
    r := Some((headers.value, outputs.value, images.value, shielded.value));
  }

  type Tail = (U64, (Bytes32, Lists))

  const TailF: Format<Tail> := Pair(U64F, Pair(Array32F, ListsF))

  /** A chain state with its lists already in columns. */
  datatype Columns = Columns(
    maturity: U64, emitted: U64, genesis: Bytes32, headers: HeaderColumns, outputs: OutputColumns,
    images: seq<Bytes32>, shielded: seq<Byte>)
  {
    predicate Even() {
      headers.Even() && outputs.Even()
    }

    function Later(): Tail
      requires Even()
    {
      (emitted, (genesis, (headers.Rows(), (outputs.Rows(), (images, shielded)))))
    }

    function Fields(): StateFields
      requires Even()
    {
      (1, (maturity, Later()))
    }

    function State(): ChainState {
      ChainState(maturity, emitted, genesis, headers.ids, headers.timestamps, headers.work, outputs.outputs,
                 outputs.meta, images, shielded)
    }
  }

  lemma ColumnsOfRows(c: Columns)
    requires c.Even()
    ensures StateOf(c.Fields()) == c.State()
  {
    var cs := StateOf(c.Fields());
    assert cs.blockIds == c.headers.ids && cs.timestamps == c.headers.timestamps && cs.work == c.headers.work;
    assert cs.outputs == c.outputs.outputs && cs.outputMeta == c.outputs.meta;
  }

  /** Everything after the maturity; the maturity is passed through. */
  method ReadTail(cur: Cursor, maturity: U64) returns (r: Option<Columns>)
    requires |cur.left| < TWO_64
    modifies cur
    ensures r.Some? ==> r.value.Even() && r.value.maturity == maturity
    ensures Agrees(TailF.read(old(cur.left)), if r.Some? then Some(r.value.Later()) else None, cur.left)
  {
    ghost var expected := TailF.read(cur.left);
    ghost var build1 := (p: Tail) => p;
    AfterPair(expected, build1, U64F, Pair(Array32F, ListsF), cur.left);
    var emitted := cur.Field(U64F);
    if emitted.Err? {
      return None;
    }
    ghost var build2 := (p: (Bytes32, Lists)) => build1((emitted.value, p));
    AfterPair(expected, build2, Array32F, ListsF, cur.left);
    var genesis := cur.Field(Array32F);
    if genesis.Err? {
      return None;
    }
    var lists := ReadLists(cur);
    if lists.None? {
      return None;
    }
    r := Some(Columns(maturity, emitted.value, genesis.value, lists.value.0, lists.value.1, lists.value.2,
                      lists.value.3));
  }

  method ReadState(cur: Cursor) returns (r: Option<Columns>)
    requires |cur.left| < TWO_64
    modifies cur
    ensures r.Some? ==> r.value.Even()
    ensures Agrees(StateF.read(old(cur.left)), if r.Some? then Some(r.value.Fields()) else None, cur.left)
  {
    ghost var expected := StateF.read(cur.left);
    ghost var build1 := (p: StateFields) => p;
    AfterPair(expected, build1, StateVersionF, Pair(U64F, TailF), cur.left);
    var version := PoolSnapshots.ReadVersion(cur);
    if version.Err? {
      return None;
    }
    ghost var build2 := (p: (U64, Tail)) => build1((version.value, p));
    AfterPair(expected, build2, U64F, TailF, cur.left);
    var maturity := cur.Field(U64F);
    if maturity.Err? {
      return None;
    }
    r := ReadTail(cur, maturity.value);
  }

  /** `decode`: nothing, or the state whose bytes these are. A buffer is shorter than 2^64 bytes. */
  method DecodeState(bytes: seq<Byte>) returns (r: Option<ChainState>)
    requires |bytes| < TWO_64
    ensures r == Decode(bytes)
  {
    var cur := new Cursor(bytes);
    var columns := ReadState(cur);
    if columns.None? || cur.left != [] {
      return None;
    }
    ColumnsOfRows(columns.value);
    r := Some(columns.value.State());
  }
}
