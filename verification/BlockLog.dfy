/**
 The append-only block log and its lazily extended height index (noct/node/src/store.rs).
 The file is a byte string; frames are a 4-byte length and an encoded block. The theory
 holds for any frame decoder; `StoredFrames` puts in the program's own.
 */
module BlockLog {
  import opened Types
  import opened Data
  import opened LittleEndian
  import opened Formats
  import opened Wire
  import opened Messages

  datatype LogError = CorruptLength | UnexpectedMessage | Malformed(cause: WireError)

  const MAX_FRAME_BYTES: nat := 32 * 1024 * 1024

  type Decoder = seq<Byte> -> Result<StoredBlock, LogError>

  // --- frames --------------------------------------------------------------

  function LengthAt(data: seq<Byte>, pos: nat): nat
    requires pos + 4 <= |data|
  {
    FromLe(data[pos..pos + 4])
  }

  /** A complete frame starts here. */
  predicate FrameAt(data: seq<Byte>, pos: nat) {
    pos + 4 <= |data| && LengthAt(data, pos) <= MAX_FRAME_BYTES && pos + 4 + LengthAt(data, pos) <= |data|
  }

  /** A length no frame may have stands here. */
  predicate CorruptAt(data: seq<Byte>, pos: nat) {
    pos + 4 <= |data| && LengthAt(data, pos) > MAX_FRAME_BYTES
  }

  function FrameEnd(data: seq<Byte>, pos: nat): (end: nat)
    requires FrameAt(data, pos)
    ensures pos < end <= |data|
  {
    pos + 4 + LengthAt(data, pos)
  }

  function Body(data: seq<Byte>, pos: nat): seq<Byte>
    requires FrameAt(data, pos)
  {
    data[pos + 4..FrameEnd(data, pos)]
  }

  // --- the full scan -------------------------------------------------------

  type Loaded = Result<seq<StoredBlock>, LogError>

  function Before(bs: seq<StoredBlock>, rest: Loaded): Loaded {
    match rest
    case Err(e) => Err(e)
    case Ok(more) => Ok(bs + more)
  }

  function LoadFrom(decode: Decoder, data: seq<Byte>, pos: nat): Loaded
    decreases |data| - pos
  {
    if CorruptAt(data, pos) then Err(CorruptLength)
    else if !FrameAt(data, pos) then Ok([])
    else
      match decode(Body(data, pos))
      case Err(e) => Err(e)
      case Ok(b) => Before([b], LoadFrom(decode, data, FrameEnd(data, pos)))
  }

  lemma BeforeTwice(bs: seq<StoredBlock>, b: StoredBlock, rest: Loaded)
    ensures Before(bs, Before([b], rest)) == Before(bs + [b], rest)
  {
    if rest.Ok? {
      assert bs + ([b] + rest.value) == (bs + [b]) + rest.value;
    }
  }

  /** Every complete frame in order; a torn last frame is dropped, anything else wrong is an error. */
  method LoadAll(decode: Decoder, data: seq<Byte>) returns (r: Loaded)
    ensures r == LoadFrom(decode, data, 0)
  {
    var out: seq<StoredBlock> := [];
    var pos := 0;
    if LoadFrom(decode, data, 0).Ok? {
      assert [] + LoadFrom(decode, data, 0).value == LoadFrom(decode, data, 0).value;
    }
    while pos + 4 <= |data|
      invariant pos <= |data|
      invariant LoadFrom(decode, data, 0) == Before(out, LoadFrom(decode, data, pos))
      decreases |data| - pos
    {
      var len := LengthAt(data, pos);
      if len > MAX_FRAME_BYTES {
        return Err(CorruptLength);
      }
      if |data| < pos + 4 + len {
        break;
      }
      match decode(data[pos + 4..pos + 4 + len]) {
        case Err(e) => return Err(e);
        case Ok(b) =>
          BeforeTwice(out, b, LoadFrom(decode, data, pos + 4 + len));
          out := out + [b];
          pos := pos + 4 + len;
      }
    }
    assert out + [] == out;
    r := Ok(out);
  }

  // --- appending -----------------------------------------------------------

  /** How a block becomes bytes, and back. */
  ghost predicate Storable(encode: StoredBlock -> seq<Byte>, decode: Decoder, b: StoredBlock) {
    |encode(b)| <= 33_554_432 && decode(encode(b)) == Ok(b)
  }

  function Frame(encode: StoredBlock -> seq<Byte>, b: StoredBlock): seq<Byte> {
    ToLe(4, |encode(b)|) + encode(b)
  }

  /** What a log of these blocks holds. */
  function Log(encode: StoredBlock -> seq<Byte>, bs: seq<StoredBlock>): seq<Byte> {
    if bs == [] then [] else Frame(encode, bs[0]) + Log(encode, bs[1..])
  }

  lemma {:induction false} AppendExtendsLog(encode: StoredBlock -> seq<Byte>, bs: seq<StoredBlock>, b: StoredBlock)
    ensures Log(encode, bs + [b]) == Log(encode, bs) + Frame(encode, b)
  {
    if bs == [] {
      assert [b][1..] == [];
      assert Log(encode, [b]) == Frame(encode, b) + [];
    } else {
      assert (bs + [b])[1..] == bs[1..] + [b];
      AppendExtendsLog(encode, bs[1..], b);
    }
  }

  lemma MiddleOf(before: seq<Byte>, head: seq<Byte>, body: seq<Byte>, after: seq<Byte>)
    ensures var data := before + (head + body) + after;
            var start := |before| + |head|;
            data[|before|..start] == head && data[start..start + |body|] == body
  {
  }

  lemma HeadOf(before: seq<Byte>, head: seq<Byte>, body: seq<Byte>, n: nat)
    requires |head| <= n <= |head + body|
    ensures var data := before + (head + body)[..n];
            data[|before|..|before| + |head|] == head
  {
  }

  lemma FrameReads(
    encode: StoredBlock -> seq<Byte>, decode: Decoder, b: StoredBlock, before: seq<Byte>, after: seq<Byte>)
    requires Storable(encode, decode, b)
    ensures var data := before + Frame(encode, b) + after;
            FrameAt(data, |before|) && Body(data, |before|) == encode(b)
            && FrameEnd(data, |before|) == |before| + |Frame(encode, b)|
  {
    Widths();
    ToFromLe(4, |encode(b)|);
    MiddleOf(before, ToLe(4, |encode(b)|), encode(b), after);
  }

  /** A frame cut short anywhere: neither complete nor corrupt. */
  lemma TornFrame(encode: StoredBlock -> seq<Byte>, decode: Decoder, b: StoredBlock, before: seq<Byte>, n: nat)
    requires Storable(encode, decode, b) && n < |Frame(encode, b)|
    ensures var data := before + Frame(encode, b)[..n];
            !FrameAt(data, |before|) && !CorruptAt(data, |before|)
  {
    Widths();
    ToFromLe(4, |encode(b)|);
    if n >= 4 {
      HeadOf(before, ToLe(4, |encode(b)|), encode(b), n);
    }
  }

  /** How many frames lie wholly inside the first `n` bytes. */
  function WholeFrames(encode: StoredBlock -> seq<Byte>, bs: seq<StoredBlock>, n: nat): (k: nat)
    ensures k <= |bs|
  {
    if bs == [] || n < |Frame(encode, bs[0])| then 0
    else 1 + WholeFrames(encode, bs[1..], n - |Frame(encode, bs[0])|)
  }

  lemma {:induction false} WholeFramesFit(encode: StoredBlock -> seq<Byte>, bs: seq<StoredBlock>, n: nat)
    ensures var k := WholeFrames(encode, bs, n);
            |Log(encode, bs[..k])| <= n && (k < |bs| ==> n < |Log(encode, bs[..k + 1])|)
  {
    if bs != [] {
      var k := WholeFrames(encode, bs, n);
      if k > 0 {
        WholeFramesFit(encode, bs[1..], n - |Frame(encode, bs[0])|);
        assert bs[..k][1..] == bs[1..][..k - 1];
        if k < |bs| {
          assert bs[..k + 1][1..] == bs[1..][..k];
        }
      } else {
        assert bs[..1][1..] == [];
        assert Log(encode, bs[..1]) == Frame(encode, bs[0]) + [];
      }
    }
  }

  lemma {:induction false} PrefixLoadsFrom(
    encode: StoredBlock -> seq<Byte>, decode: Decoder, bs: seq<StoredBlock>, before: seq<Byte>, n: nat)
    requires forall i :: 0 <= i < |bs| ==> Storable(encode, decode, bs[i])
    requires n <= |Log(encode, bs)|
    ensures LoadFrom(decode, before + Log(encode, bs)[..n], |before|) == Ok(bs[..WholeFrames(encode, bs, n)])
    decreases |bs|
  {
    var data := before + Log(encode, bs)[..n];
    if bs == [] {
      assert data == before;
    } else {
      var frame := Frame(encode, bs[0]);
      assert Storable(encode, decode, bs[0]);
      if n < |frame| {
        assert Log(encode, bs)[..n] == frame[..n];
        TornFrame(encode, decode, bs[0], before, n);
      } else {
        var m := n - |frame|;
        assert Log(encode, bs)[..n] == frame + Log(encode, bs[1..])[..m];
        assert data == before + frame + Log(encode, bs[1..])[..m];
        FrameReads(encode, decode, bs[0], before, Log(encode, bs[1..])[..m]);
        PrefixLoadsFrom(encode, decode, bs[1..], before + frame, m);
        assert bs[..WholeFrames(encode, bs, n)] == [bs[0]] + bs[1..][..WholeFrames(encode, bs[1..], m)];
      }
    }
  }

  lemma {:induction false} LogMonotone(encode: StoredBlock -> seq<Byte>, bs: seq<StoredBlock>, k: nat)
    requires k <= |bs|
    ensures |Log(encode, bs[..k])| <= |Log(encode, bs)|
  {
    if k > 0 {
      LogMonotone(encode, bs[1..], k - 1);
      assert bs[..k][1..] == bs[1..][..k - 1];
    }
  }

  /**
   A crash can only cost the last frame: loading any byte-prefix of a log gives exactly
   the blocks whose frames lie wholly inside it.
   */
  lemma AnyPrefixLoads(encode: StoredBlock -> seq<Byte>, decode: Decoder, bs: seq<StoredBlock>, n: nat)
    requires forall i :: 0 <= i < |bs| ==> Storable(encode, decode, bs[i])
    requires n <= |Log(encode, bs)|
    ensures LoadFrom(decode, Log(encode, bs)[..n], 0) == Ok(bs[..WholeFrames(encode, bs, n)])
    ensures LoadFrom(decode, Log(encode, bs), 0) == Ok(bs)
  {
    PrefixLoadsFrom(encode, decode, bs, [], n);
    assert [] + Log(encode, bs)[..n] == Log(encode, bs)[..n];
    var all := |Log(encode, bs)|;
    PrefixLoadsFrom(encode, decode, bs, [], all);
    assert [] + Log(encode, bs)[..all] == Log(encode, bs);
    WholeFramesFit(encode, bs, all);
    var k := WholeFrames(encode, bs, all);
    if k < |bs| {
      LogMonotone(encode, bs, k + 1);
    }
    assert bs[..|bs|] == bs;
  }

  // --- the index -----------------------------------------------------------

  /** `offsets` are the starts of consecutive complete frames from `pos` to `end`. */
  predicate Chained(data: seq<Byte>, pos: nat, offsets: seq<nat>, end: nat)
    decreases |offsets|
  {
    if offsets == [] then pos == end
    else offsets[0] == pos && FrameAt(data, pos) && Chained(data, FrameEnd(data, pos), offsets[1..], end)
  }

  predicate AllFrames(data: seq<Byte>, offsets: seq<nat>) {
    forall i :: 0 <= i < |offsets| ==> FrameAt(data, offsets[i])
  }

  /** Starts of the complete frames from `pos` on. */
  function Walk(data: seq<Byte>, pos: nat): (offsets: seq<nat>)
    ensures AllFrames(data, offsets)
    decreases |data| - pos
  {
    if FrameAt(data, pos) then [pos] + Walk(data, FrameEnd(data, pos)) else []
  }

  /** Where that walk stops. */
  function Stop(data: seq<Byte>, pos: nat): (stop: nat)
    ensures !FrameAt(data, stop)
    decreases |data| - pos
  {
    if FrameAt(data, pos) then Stop(data, FrameEnd(data, pos)) else pos
  }

  function FrameResult(decode: Decoder, data: seq<Byte>, pos: nat): Result<Option<StoredBlock>, LogError>
    requires FrameAt(data, pos)
  {
    match decode(Body(data, pos))
    case Err(e) => Err(e)
    case Ok(b) => Ok(Some(b))
  }

  /** What the reader knows: the indexed frames and how far it has scanned. */
  datatype Index = Index(offsets: seq<nat>, scannedTo: nat)
  {
    predicate Knows(height: nat) {
      height == 0 || height - 1 < |offsets|
    }
  }

  /** The index after a read: extended only when the height is not known yet. */
  function IndexAfter(data: seq<Byte>, index: Index, height: nat): Index {
    if index.Knows(height) then index
    else Index(index.offsets + Walk(data, index.scannedTo),
               if CorruptAt(data, Stop(data, index.scannedTo)) then index.scannedTo else Stop(data, index.scannedTo))
  }

  function ReadResult(decode: Decoder, data: seq<Byte>, index: Index, height: nat)
    : Result<Option<StoredBlock>, LogError>
    requires AllFrames(data, index.offsets)
  {
    if height == 0 then Ok(None)
    else if index.Knows(height) then FrameResult(decode, data, index.offsets[height - 1])
    else if CorruptAt(data, Stop(data, index.scannedTo)) then Err(CorruptLength)
    else if IndexAfter(data, index, height).Knows(height) then
      FrameResult(decode, data, IndexAfter(data, index, height).offsets[height - 1])
    else Ok(None)
  }

  lemma WalkOn(data: seq<Byte>, pos: nat, offsets: seq<nat>)
    requires FrameAt(data, pos)
    ensures offsets + Walk(data, pos) == (offsets + [pos]) + Walk(data, FrameEnd(data, pos))
  {
  }

  /**
   The reader's state. A corrupt length is reported only after the frames before it were
   pushed, and then the scanning position is not advanced.
   */
  class Reader {
    var offsets: seq<nat>
    var scannedTo: nat

    function View(): Index
      reads this
    {
      Index(offsets, scannedTo)
    }

    constructor ()
      ensures View() == Index([], 0)
    {
      offsets, scannedTo := [], 0;
    }

    method ExtendIndex(data: seq<Byte>) returns (ok: bool)
      modifies this
      ensures offsets == old(offsets) + Walk(data, old(scannedTo))
      ensures ok <==> !CorruptAt(data, Stop(data, old(scannedTo)))
      ensures scannedTo == if ok then Stop(data, old(scannedTo)) else old(scannedTo)
    {
      var pos := scannedTo;
      while pos + 4 <= |data|
        invariant offsets + Walk(data, pos) == old(offsets) + Walk(data, old(scannedTo))
        invariant Stop(data, pos) == Stop(data, old(scannedTo))
        invariant scannedTo == old(scannedTo)
        decreases |data| - pos
      {
        var len := LengthAt(data, pos);
        if len > MAX_FRAME_BYTES {
          assert offsets + [] == offsets;
          return false;
        }
        if pos + 4 + len > |data| {
          break;
        }
        WalkOn(data, pos, offsets);
        offsets := offsets + [pos];
        pos := pos + 4 + len;
      }
      assert offsets + [] == offsets;
      scannedTo := pos;
      ok := true;
    }

    method ReadFrame(decode: Decoder, data: seq<Byte>, idx: nat) returns (r: Result<Option<StoredBlock>, LogError>)
      requires idx < |offsets| && FrameAt(data, offsets[idx])
      ensures r == FrameResult(decode, data, offsets[idx])
    {
      var len := LengthAt(data, offsets[idx]);
      var frame := data[offsets[idx] + 4..offsets[idx] + 4 + len];
      match decode(frame)
      case Err(e) => r := Err(e);
      case Ok(b) => r := Ok(Some(b));
    }

    method ReadAt(decode: Decoder, data: seq<Byte>, height: nat) returns (r: Result<Option<StoredBlock>, LogError>)
      requires AllFrames(data, offsets)
      modifies this
      ensures r == ReadResult(decode, data, old(View()), height)
      ensures View() == IndexAfter(data, old(View()), height)
    {
      if height == 0 {
        return Ok(None);
      }
      var idx := height - 1;
      if idx >= |offsets| {
        var ok := ExtendIndex(data);
        if !ok {
          return Err(CorruptLength);
        }
        if idx >= |offsets| {
          return Ok(None);
        }
      }
      r := ReadFrame(decode, data, idx);
    }
  }

  // --- the index agrees with the full scan ---------------------------------

  /** An index whose offsets are the consecutive frames up to its scanning position. */
  predicate InStep(data: seq<Byte>, index: Index) {
    Chained(data, 0, index.offsets, index.scannedTo)
  }

  /** A chain is the beginning of the walk. */
  lemma {:induction false} ChainIsWalk(data: seq<Byte>, pos: nat, offsets: seq<nat>, end: nat)
    requires Chained(data, pos, offsets, end)
    ensures Walk(data, pos) == offsets + Walk(data, end) && Stop(data, pos) == Stop(data, end)
    decreases |offsets|
  {
    if offsets == [] {
      assert offsets + Walk(data, end) == Walk(data, end);
    } else {
      var rest := offsets[1..];
      ChainIsWalk(data, FrameEnd(data, pos), rest, end);
      assert offsets + Walk(data, end) == [pos] + (rest + Walk(data, end));
    }
  }

  lemma {:induction false} ChainedFrames(data: seq<Byte>, pos: nat, offsets: seq<nat>, end: nat)
    requires Chained(data, pos, offsets, end)
    ensures AllFrames(data, offsets)
    decreases |offsets|
  {
    if offsets != [] {
      ChainedFrames(data, FrameEnd(data, pos), offsets[1..], end);
      assert offsets == [pos] + offsets[1..];
    }
  }

  lemma {:induction false} WalkIsChained(data: seq<Byte>, pos: nat)
    ensures Chained(data, pos, Walk(data, pos), Stop(data, pos))
    decreases |data| - pos
  {
    if FrameAt(data, pos) {
      WalkIsChained(data, FrameEnd(data, pos));
      assert Walk(data, pos)[1..] == Walk(data, FrameEnd(data, pos));
    }
  }

  /** Blocks and frames correspond one to one wherever the full scan succeeds. */
  lemma {:induction false} LoadFollowsWalk(decode: Decoder, data: seq<Byte>, pos: nat)
    requires LoadFrom(decode, data, pos).Ok?
    ensures !CorruptAt(data, Stop(data, pos))
    ensures var (blocks, frames) := (LoadFrom(decode, data, pos).value, Walk(data, pos));
            |blocks| == |frames|
            && forall i :: 0 <= i < |frames| ==> FrameResult(decode, data, frames[i]) == Ok(Some(blocks[i]))
    decreases |data| - pos
  {
    if FrameAt(data, pos) {
      LoadFollowsWalk(decode, data, FrameEnd(data, pos));
    }
  }

  function Expected(decode: Decoder, data: seq<Byte>, height: nat): Result<Option<StoredBlock>, LogError>
    requires LoadFrom(decode, data, 0).Ok?
  {
    var blocks := LoadFrom(decode, data, 0).value;
    Ok(if 1 <= height <= |blocks| then Some(blocks[height - 1]) else None)
  }

  /** One read: the answer of the full scan, and an index still in step. */
  lemma ReadAgrees(decode: Decoder, data: seq<Byte>, index: Index, height: nat)
    requires InStep(data, index) && LoadFrom(decode, data, 0).Ok?
    ensures AllFrames(data, index.offsets)
    ensures ReadResult(decode, data, index, height) == Expected(decode, data, height)
    ensures InStep(data, IndexAfter(data, index, height))
  {
    ChainIsWalk(data, 0, index.offsets, index.scannedTo);
    ChainedFrames(data, 0, index.offsets, index.scannedTo);
    LoadFollowsWalk(decode, data, 0);
    WalkIsChained(data, 0);
  }

  lemma {:induction false} ChainGrows(data: seq<Byte>, more: seq<Byte>, pos: nat, offsets: seq<nat>, end: nat)
    requires Chained(data, pos, offsets, end)
    ensures Chained(data + more, pos, offsets, end)
    decreases |offsets|
  {
    if offsets != [] {
      assert (data + more)[pos..pos + 4] == data[pos..pos + 4];
      ChainGrows(data, more, FrameEnd(data, pos), offsets[1..], end);
    }
  }

  /** If a log loads, so did every earlier state of the file. */
  lemma {:induction false} EarlierLoads(decode: Decoder, data: seq<Byte>, more: seq<Byte>, pos: nat)
    requires LoadFrom(decode, data + more, pos).Ok?
    ensures LoadFrom(decode, data, pos).Ok?
    decreases |data| - pos
  {
    if pos + 4 <= |data| {
      assert (data + more)[pos..pos + 4] == data[pos..pos + 4];
      if FrameAt(data, pos) {
        assert Body(data + more, pos) == Body(data, pos);
        EarlierLoads(decode, data, more, FrameEnd(data, pos));
      }
    }
  }

  // --- sessions ------------------------------------------------------------

  /** The file grows by some bytes, a whole frame or not; or a height is read. */
  datatype Event = Grow(bytes: seq<Byte>) | Read(height: nat)

  function Grown(data: seq<Byte>, events: seq<Event>): seq<Byte>
    decreases |events|
  {
    if events == [] then data
    else Grown(if events[0].Grow? then data + events[0].bytes else data, events[1..])
  }

  /** Every read of the session is answered as a full scan at that moment would. */
  ghost predicate SessionAgrees(decode: Decoder, data: seq<Byte>, index: Index, events: seq<Event>)
    decreases |events|
  {
    events == [] ||
    match events[0]
    case Grow(bytes) => SessionAgrees(decode, data + bytes, index, events[1..])
    case Read(height) =>
      && AllFrames(data, index.offsets) && LoadFrom(decode, data, 0).Ok?
      && ReadResult(decode, data, index, height) == Expected(decode, data, height)
      && SessionAgrees(decode, data, IndexAfter(data, index, height), events[1..])
  }

  lemma {:induction false} GrownExtends(data: seq<Byte>, events: seq<Event>) returns (more: seq<Byte>)
    ensures Grown(data, events) == data + more
    decreases |events|
  {
    more := [];
    if events == [] {
      assert data + [] == data;
    } else if events[0].Grow? {
      var rest := GrownExtends(data + events[0].bytes, events[1..]);
      more := events[0].bytes + rest;
    } else {
      more := GrownExtends(data, events[1..]);
    }
  }

  /**
   Through any interleaving of reads and growth, half-written frames included, the lazy
   index answers every read as a scan of the whole file would at that moment.
   */
  lemma {:induction false} LazyIndexIsExact(decode: Decoder, data: seq<Byte>, index: Index, events: seq<Event>)
    requires InStep(data, index) && LoadFrom(decode, Grown(data, events), 0).Ok?
    ensures SessionAgrees(decode, data, index, events)
    decreases |events|
  {
    if events != [] {
      match events[0]
      case Grow(bytes) =>
        ChainGrows(data, bytes, 0, index.offsets, index.scannedTo);
        LazyIndexIsExact(decode, data + bytes, index, events[1..]);
      case Read(height) =>
        var more := GrownExtends(data, events);
        EarlierLoads(decode, data, more, 0);
        ReadAgrees(decode, data, index, height);
        LazyIndexIsExact(decode, data, IndexAfter(data, index, height), events[1..]);
    }
  }

  // --- after corruption ----------------------------------------------------

  /**
   The index leaves step exactly when an extension meets a corrupt length after new
   complete frames: those are pushed, but the next extension will find them again.
   */
  lemma StaysInStepIff(data: seq<Byte>, index: Index, height: nat)
    requires InStep(data, index)
    ensures InStep(data, IndexAfter(data, index, height)) <==>
              || index.Knows(height) || Walk(data, index.scannedTo) == []
              || !CorruptAt(data, Stop(data, index.scannedTo))
  {
    ChainIsWalk(data, 0, index.offsets, index.scannedTo);
    WalkIsChained(data, 0);
    var after := IndexAfter(data, index, height);
    if InStep(data, after) {
      ChainIsWalk(data, 0, after.offsets, after.scannedTo);
    }
  }

  /**
   Two reads past the end of a log with a corrupt length leave every frame in the index
   twice, and the height after the last one is then answered with the first block.
   */
  lemma CorruptionRepeatsFrames(decode: Decoder, data: seq<Byte>)
    requires CorruptAt(data, Stop(data, 0)) && FrameAt(data, 0)
    ensures var n := |Walk(data, 0)|;
            var once := IndexAfter(data, Index([], 0), n + 1);
            var twice := IndexAfter(data, once, n + 1);
            && once.offsets == Walk(data, 0) && twice.offsets == Walk(data, 0) + Walk(data, 0)
            && AllFrames(data, twice.offsets)
            && ReadResult(decode, data, twice, n + 1) == FrameResult(decode, data, 0)
            && LoadFrom(decode, data, 0).Err?
  {
    var all := Walk(data, 0);
    assert [] + all == all;
    assert (all + all)[|all|] == all[0] == 0;
    if LoadFrom(decode, data, 0).Ok? {
      LoadFollowsWalk(decode, data, 0);
    }
  }

  // --- the program's frames ------------------------------------------------

  function StoredBytes(b: StoredBlock): seq<Byte> {
    MessageBytes(BlockMsg(b.block, b.txs))
  }

  function StoredFrames(c: Codec): Decoder {
    (frame: seq<Byte>) =>
      match DecodeMessage(c, frame)
      case Err(e) => Err(Malformed(e))
      case Ok(m) => if m.BlockMsg? then Ok(StoredBlock(m.block, m.txs)) else Err(UnexpectedMessage)
  }

  /** Every block the wire can carry, within the frame cap, survives the log. */
  lemma BlocksAreStorable(c: Codec, b: StoredBlock)
    requires SelfDelimiting(c) && MessageWellFormed(c, BlockMsg(b.block, b.txs))
    requires |StoredBytes(b)| <= MAX_FRAME_BYTES
    ensures Storable(StoredBytes, StoredFrames(c), b)
  {
    MessagesDecodeExactly(c, BlockMsg(b.block, b.txs), StoredBytes(b));
  }
}
