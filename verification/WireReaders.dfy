/**
 The wire module's readers as they run: one cursor, field after field, each check where
 the program makes it (noct/core/src/wire.rs). Every reader is proved to read what the
 exact format of its object reads, error by error, so the canonicality of the formats is
 that of the program's readers.
 */
module WireReaders {
  import opened Types
  import opened Data
  import opened Formats
  import opened Messages
  import opened Readers
  import opened Wire

  // --- where a reader stands in its format ---------------------------------

  /** What is expected of the whole is what comes of the rest, put together with the parts read so far. */
  ghost predicate Follows<T, B>(expected: Read<T>, build: B -> T, next: Read<B>) {
    match next
    case Err(e) => expected == Err(e)
    case Ok((b, rest)) => expected == Ok((build(b), rest))
  }

  lemma AfterPair<A, B, T>(expected: Read<T>, build: ((A, B)) -> T, f: Format<A>, g: Format<B>, s: seq<Byte>)
    requires Follows(expected, build, Pair(f, g).read(s))
    ensures match f.read(s)
            case Err(e) => expected == Err(e)
            case Ok((a, rest)) => Follows(expected, (b: B) => build((a, b)), g.read(rest))
  {
  }

  lemma AfterThen<A, B, T>(
    expected: Read<T>, build: ((A, B)) -> T, f: Format<A>, g: A -> Format<B>, s: seq<Byte>)
    requires Follows(expected, build, Then(f, g).read(s))
    ensures match f.read(s)
            case Err(e) => expected == Err(e)
            case Ok((a, rest)) => Follows(expected, (b: B) => build((a, b)), g(a).read(rest))
  {
  }

  lemma InsideMapped<A, B>(f: Format<A>, build: A -> B, parts: B -> A, s: seq<Byte>)
    ensures Follows(Mapped(f, build, parts).read(s), build, f.read(s))
  {
  }

  lemma InsideChecked<T>(f: Format<T>, ok: T -> bool, error: WireError, s: seq<Byte>)
    ensures Checked(f, ok, error).read(s) ==
            match f.read(s)
            case Err(e) => Err(e)
            case Ok((x, rest)) => if ok(x) then Ok((x, rest)) else Err(error)
  {
  }

  // --- transactions --------------------------------------------------------

  /** `read_ring_member`. */
  method ReadRingMember(cur: Cursor, c: Codec) returns (r: Result<RingMember, WireError>)
    modifies cur
    ensures Outcome(RingMemberF(c).read(old(cur.left)), r, cur.left)
  {
    var key := cur.Field(PointF(c.keyOk));
    if key.Err? {
      return Err(key.error);
    }
    var commitment := cur.Field(PointF(c.commitmentOk));
    if commitment.Err? {
      return Err(commitment.error);
    }
    r := Ok(RingMember(key.value, commitment.value));
  }

  /** The members of a ring one by one, up to the first that does not read. */
  method ReadMembers(cur: Cursor, c: Codec, n: nat) returns (r: Result<seq<RingMember>, WireError>)
    modifies cur
    ensures Outcome(ReadItems(RingMemberF(c), n, old(cur.left)), r, cur.left)
  {
    var out: seq<RingMember> := [];
    ReadingStarts(RingMemberF(c), n, cur.left);
    for i := 0 to n
      invariant Reading(RingMemberF(c), n, old(cur.left), i, out, cur.left)
    {
      ghost var before := cur.left;
      var x := ReadRingMember(cur, c);
      ReadingGoesOn(RingMemberF(c), n, old(cur.left), i, out, before, x, cur.left);
      if x.Err? {
        return Err(x.error);
      }
      out := out + [x.value];
    }
    ReadingEnds(RingMemberF(c), n, old(cur.left), out, cur.left);
    r := Ok(out);
  }

  /** A ring: its bounded length, then its members. */
  method ReadRing(cur: Cursor, c: Codec) returns (r: Result<seq<RingMember>, WireError>)
    modifies cur
    ensures Outcome(Counted(4, MAX_RING_SIZE, RingMemberF(c)).read(old(cur.left)), r, cur.left)
  {
    CountedReads(MAX_RING_SIZE, RingMemberF(c), cur.left);
    var n := cur.Count(MAX_RING_SIZE);
    if n.Err? {
      return Err(n.error);
    }
    r := ReadMembers(cur, c, n.value);
  }

  /** What follows the ring; its length tells how long the signature is. */
  method ReadInputRest(cur: Cursor, c: Codec, ring: seq<RingMember>) returns (r: Result<InputRest, WireError>)
    modifies cur
    ensures Outcome(InputRestF(c, ring).read(old(cur.left)), r, cur.left)
  {
    var image := cur.Field(PointF(c.imageOk));
    if image.Err? {
      return Err(image.error);
    }
    var pseudoOut := cur.Field(PointF(c.commitmentOk));
    if pseudoOut.Err? {
      return Err(pseudoOut.error);
    }
    var clsag := cur.Field(Blob(32 * (|ring| + 2), c.clsagOk));
    if clsag.Err? {
      return Err(clsag.error);
    }
    r := Ok((image.value, (pseudoOut.value, clsag.value)));
  }

  /** `read_input`. */
  method ReadInput(cur: Cursor, c: Codec) returns (r: Result<Input, WireError>)
    modifies cur
    ensures Outcome(InputF(c).read(old(cur.left)), r, cur.left)
  {
    ghost var expected := InputF(c).read(cur.left);
    ghost var restF := (ring: seq<RingMember>) => InputRestF(c, ring);
    InsideMapped(Then(RingF(c), restF), BuildInput, InputParts, cur.left);
    AfterThen(expected, BuildInput, RingF(c), restF, cur.left);
    var ring := ReadRing(cur, c);
    if ring.Err? {
      return Err(ring.error);
    }
    var rest := ReadInputRest(cur, c, ring.value);
    if rest.Err? {
      return Err(rest.error);
    }
    r := Ok(Input(ring.value, rest.value.0, rest.value.1.0, rest.value.1.1));
  }

  /** `read_output`. */
  method ReadOutput(cur: Cursor, c: Codec) returns (r: Result<Output, WireError>)
    modifies cur
    ensures Outcome(OutputF(c).read(old(cur.left)), r, cur.left)
  {
    var key := cur.Field(PointF(c.keyOk));
    if key.Err? {
      return Err(key.error);
    }
    var commitment := cur.Field(PointF(c.commitmentOk));
    if commitment.Err? {
      return Err(commitment.error);
    }
    var amount := cur.Field(U64F);
    if amount.Err? {
      return Err(amount.error);
    }
    r := Ok(Output(key.value, commitment.value, amount.value));
  }

  method ReadInputItems(cur: Cursor, c: Codec, n: nat) returns (r: Result<seq<Input>, WireError>)
    modifies cur
    ensures Outcome(ReadItems(InputF(c), n, old(cur.left)), r, cur.left)
  {
    var out: seq<Input> := [];
    ReadingStarts(InputF(c), n, cur.left);
    for i := 0 to n
      invariant Reading(InputF(c), n, old(cur.left), i, out, cur.left)
    {
      ghost var before := cur.left;
      var x := ReadInput(cur, c);
      ReadingGoesOn(InputF(c), n, old(cur.left), i, out, before, x, cur.left);
      if x.Err? {
        return Err(x.error);
      }
      out := out + [x.value];
    }
    ReadingEnds(InputF(c), n, old(cur.left), out, cur.left);
    r := Ok(out);
  }

  method ReadInputs(cur: Cursor, c: Codec) returns (r: Result<seq<Input>, WireError>)
    modifies cur
    ensures Outcome(Counted(4, MAX_INPUTS, InputF(c)).read(old(cur.left)), r, cur.left)
  {
    CountedReads(MAX_INPUTS, InputF(c), cur.left);
    var n := cur.Count(MAX_INPUTS);
    if n.Err? {
      return Err(n.error);
    }
    r := ReadInputItems(cur, c, n.value);
  }

  method ReadOutputItems(cur: Cursor, c: Codec, n: nat) returns (r: Result<seq<Output>, WireError>)
    modifies cur
    ensures Outcome(ReadItems(OutputF(c), n, old(cur.left)), r, cur.left)
  {
    var out: seq<Output> := [];
    ReadingStarts(OutputF(c), n, cur.left);
    for i := 0 to n
      invariant Reading(OutputF(c), n, old(cur.left), i, out, cur.left)
    {
      ghost var before := cur.left;
      var x := ReadOutput(cur, c);
      ReadingGoesOn(OutputF(c), n, old(cur.left), i, out, before, x, cur.left);
      if x.Err? {
        return Err(x.error);
      }
      out := out + [x.value];
    }
    ReadingEnds(OutputF(c), n, old(cur.left), out, cur.left);
    r := Ok(out);
  }

  method ReadOutputs(cur: Cursor, c: Codec) returns (r: Result<seq<Output>, WireError>)
    modifies cur
    ensures Outcome(Counted(4, MAX_COMMITMENTS, OutputF(c)).read(old(cur.left)), r, cur.left)
  {
    CountedReads(MAX_COMMITMENTS, OutputF(c), cur.left);
    var n := cur.Count(MAX_COMMITMENTS);
    if n.Err? {
      return Err(n.error);
    }
    r := ReadOutputItems(cur, c, n.value);
  }

  /** The first half of `read_transaction`: everything before the proof. */
  method ReadTxHead(cur: Cursor, c: Codec) returns (r: Result<TxHead, WireError>)
    modifies cur
    ensures Outcome(TxHeadF(c).read(old(cur.left)), r, cur.left)
  {
    ghost var expected := TxHeadF(c).read(cur.left);
    ghost var f5 := Pair(Counted(4, MAX_INPUTS, InputF(c)), Counted(4, MAX_COMMITMENTS, OutputF(c)));
    ghost var f4 := Pair(U64F, f5);
    ghost var f3 := Pair(Counted(4, MAX_COMMITMENTS, PointF(c.keyOk)), f4);
    ghost var f2 := Pair(PointF(c.keyOk), f3);
    ghost var build1 := (p: TxHead) => p;
    AfterPair(expected, build1, ByteF, f2, cur.left);
    var version := cur.Field(ByteF);
    if version.Err? {
      return Err(version.error);
    }
    ghost var build2 := (p: (Bytes32, (seq<Bytes32>, (U64, (seq<Input>, seq<Output>))))) => build1((version.value, p));
    AfterPair(expected, build2, PointF(c.keyOk), f3, cur.left);
    var txPublic := cur.Field(PointF(c.keyOk));
    if txPublic.Err? {
      return Err(txPublic.error);
    }
    ghost var build3 := (p: (seq<Bytes32>, (U64, (seq<Input>, seq<Output>)))) => build2((txPublic.value, p));
    AfterPair(expected, build3, Counted(4, MAX_COMMITMENTS, PointF(c.keyOk)), f4, cur.left);
    var additional := cur.Vec(MAX_COMMITMENTS, PointF(c.keyOk));
    if additional.Err? {
      return Err(additional.error);
    }
    ghost var build4 := (p: (U64, (seq<Input>, seq<Output>))) => build3((additional.value, p));
    AfterPair(expected, build4, U64F, f5, cur.left);
    var fee := cur.Field(U64F);
    if fee.Err? {
      return Err(fee.error);
    }
    ghost var build5 := (p: (seq<Input>, seq<Output>)) => build4((fee.value, p));
    AfterPair(expected, build5, Counted(4, MAX_INPUTS, InputF(c)), Counted(4, MAX_COMMITMENTS, OutputF(c)), cur.left);
    var inputs := ReadInputs(cur, c);
    if inputs.Err? {
      return Err(inputs.error);
    }
    var outputs := ReadOutputs(cur, c);
    if outputs.Err? {
      return Err(outputs.error);
    }
    r := Ok((version.value, (txPublic.value, (additional.value, (fee.value, (inputs.value, outputs.value))))));
  }

  const ActionTailF: Format<(seq<Byte>, (seq<Byte>, seq<Byte>))> :=
    Pair(Raw(ENC_CIPHERTEXT), Pair(Raw(OUT_CIPHERTEXT), Raw(64)))

  /** The byte strings at the end of an action. */
  method ReadActionTail(cur: Cursor) returns (r: Result<(seq<Byte>, (seq<Byte>, seq<Byte>)), WireError>)
    modifies cur
    ensures Outcome(ActionTailF.read(old(cur.left)), r, cur.left)
  {
    var enc := cur.Field(Raw(ENC_CIPHERTEXT));
    if enc.Err? {
      return Err(enc.error);
    }
    var out := cur.Field(Raw(OUT_CIPHERTEXT));
    if out.Err? {
      return Err(out.error);
    }
    var auth := cur.Field(Raw(64));
    if auth.Err? {
      return Err(auth.error);
    }
    r := Ok((enc.value, (out.value, auth.value)));
  }

  /** The eight fields of an action. */
  method ReadActionFields(cur: Cursor) returns (r: Result<Action, WireError>)
    modifies cur
    ensures Outcome(Mapped(ActionFields, BuildAction, ActionPartsOf).read(old(cur.left)), r, cur.left)
  {
    ghost var expected := Mapped(ActionFields, BuildAction, ActionPartsOf).read(cur.left);
    ghost var f5 := Pair(Array32F, ActionTailF);
    ghost var f4 := Pair(Array32F, f5);
    ghost var f3 := Pair(Array32F, f4);
    ghost var f2 := Pair(Array32F, f3);
    InsideMapped(ActionFields, BuildAction, ActionPartsOf, cur.left);
    AfterPair(expected, BuildAction, Array32F, f2, cur.left);
    var cvNet := cur.Field(Array32F);
    if cvNet.Err? {
      return Err(cvNet.error);
    }
    ghost var build2 := (p: (Bytes32, (Bytes32, (Bytes32, (Bytes32, (seq<Byte>, (seq<Byte>, seq<Byte>))))))) =>
      BuildAction((cvNet.value, p));
    AfterPair(expected, build2, Array32F, f3, cur.left);
    var nullifier := cur.Field(Array32F);
    if nullifier.Err? {
      return Err(nullifier.error);
    }
    ghost var build3 := (p: (Bytes32, (Bytes32, (Bytes32, (seq<Byte>, (seq<Byte>, seq<Byte>)))))) =>
      build2((nullifier.value, p));
    AfterPair(expected, build3, Array32F, f4, cur.left);
    var rk := cur.Field(Array32F);
    if rk.Err? {
      return Err(rk.error);
    }
    ghost var build4 := (p: (Bytes32, (Bytes32, (seq<Byte>, (seq<Byte>, seq<Byte>))))) => build3((rk.value, p));
    AfterPair(expected, build4, Array32F, f5, cur.left);
    var cmx := cur.Field(Array32F);
    if cmx.Err? {
      return Err(cmx.error);
    }
    ghost var build5 := (p: (Bytes32, (seq<Byte>, (seq<Byte>, seq<Byte>)))) => build4((cmx.value, p));
    AfterPair(expected, build5, Array32F, ActionTailF, cur.left);
    var epk := cur.Field(Array32F);
    if epk.Err? {
      return Err(epk.error);
    }
    ghost var build6 := (p: (seq<Byte>, (seq<Byte>, seq<Byte>))) => build5((epk.value, p));
    var tail := ReadActionTail(cur);
    if tail.Err? {
      return Err(tail.error);
    }
    r := Ok(Action(cvNet.value, nullifier.value, rk.value, cmx.value, epk.value, tail.value.0, tail.value.1.0,
      tail.value.1.1));
  }

  /** An action of a bundle, checked once all its fields are there. */
  method ReadAction(cur: Cursor, c: Codec) returns (r: Result<Action, WireError>)
    modifies cur
    ensures Outcome(ActionF(c).read(old(cur.left)), r, cur.left)
  {
    InsideChecked(Mapped(ActionFields, BuildAction, ActionPartsOf), c.actionOk, BadPoint, cur.left);
    r := ReadActionFields(cur);
    if r.Ok? && !c.actionOk(r.value) {
      r := Err(BadPoint);
    }
  }

  method ReadActions(cur: Cursor, c: Codec, n: nat) returns (r: Result<seq<Action>, WireError>)
    modifies cur
    ensures Outcome(ReadItems(ActionF(c), n, old(cur.left)), r, cur.left)
  {
    var out: seq<Action> := [];
    ReadingStarts(ActionF(c), n, cur.left);
    for i := 0 to n
      invariant Reading(ActionF(c), n, old(cur.left), i, out, cur.left)
    {
      ghost var before := cur.left;
      var x := ReadAction(cur, c);
      ReadingGoesOn(ActionF(c), n, old(cur.left), i, out, before, x, cur.left);
      if x.Err? {
        return Err(x.error);
      }
      out := out + [x.value];
    }
    ReadingEnds(ActionF(c), n, old(cur.left), out, cur.left);
    r := Ok(out);
  }

  /** Fields of a bundle after its action count; the proof's length comes from the count. */
  method ReadBundleRest(cur: Cursor, c: Codec, n: U16) returns (r: Result<BundleRest, WireError>)
    modifies cur
    ensures Outcome(BundleRestF(c, n).read(old(cur.left)), r, cur.left)
  {
    ghost var expected := BundleRestF(c, n).read(cur.left);
    ghost var flagsF := Checked(ByteF, c.flagsOk, BadTag);
    ghost var f5 := Pair(Raw(c.bundleProofBytes(n)), Raw(64));
    ghost var f4 := Pair(PointF(c.anchorOk), f5);
    ghost var f3 := Pair(I64F, f4);
    ghost var f2 := Pair(flagsF, f3);
    ghost var build1 := (p: BundleRest) => p;
    AfterPair(expected, build1, Times(ActionF(c), n), f2, cur.left);
    var actions := ReadActions(cur, c, n);
    if actions.Err? {
      return Err(actions.error);
    }
    ghost var build2 := (p: (Byte, (I64, (Bytes32, (seq<Byte>, seq<Byte>))))) => build1((actions.value, p));
    AfterPair(expected, build2, flagsF, f3, cur.left);
    var flags := cur.Field(Checked(ByteF, c.flagsOk, BadTag));
    if flags.Err? {
      return Err(flags.error);
    }
    ghost var build3 := (p: (I64, (Bytes32, (seq<Byte>, seq<Byte>)))) => build2((flags.value, p));
    AfterPair(expected, build3, I64F, f4, cur.left);
    var balance := cur.Field(I64F);
    if balance.Err? {
      return Err(balance.error);
    }
    ghost var build4 := (p: (Bytes32, (seq<Byte>, seq<Byte>))) => build3((balance.value, p));
    AfterPair(expected, build4, PointF(c.anchorOk), f5, cur.left);
    var anchor := cur.Field(PointF(c.anchorOk));
    if anchor.Err? {
      return Err(anchor.error);
    }
    ghost var build5 := (p: (seq<Byte>, seq<Byte>)) => build4((anchor.value, p));
    AfterPair(expected, build5, Raw(c.bundleProofBytes(n)), Raw(64), cur.left);
    var proof := cur.Field(Raw(c.bundleProofBytes(n)));
    if proof.Err? {
      return Err(proof.error);
    }
    var binding := cur.Field(Raw(64));
    if binding.Err? {
      return Err(binding.error);
    }
    r := Ok((actions.value, (flags.value, (balance.value, (anchor.value, (proof.value, binding.value))))));
  }

  ghost function BundleFieldsF(c: Codec): Format<Bundle> {
    Mapped(Then(ActionCountF, (n: U16) => BundleRestF(c, n)), BuildBundle, BundlePartsOf)
  }

  /** The action count, bounded before anything else is read, and the fields that follow it. */
  method ReadBundleFields(cur: Cursor, c: Codec) returns (r: Result<Bundle, WireError>)
    modifies cur
    ensures Outcome(BundleFieldsF(c).read(old(cur.left)), r, cur.left)
  {
    ghost var expected := BundleFieldsF(c).read(cur.left);
    ghost var rest := (n: U16) => BundleRestF(c, n);
    InsideMapped(Then(ActionCountF, rest), BuildBundle, BundlePartsOf, cur.left);
    AfterThen(expected, BuildBundle, ActionCountF, rest, cur.left);
    var count := cur.Field(U16F);
    if count.Err? {
      return Err(count.error);
    }
    if count.value == 0 || count.value > MAX_ACTIONS {
      return Err(TooLarge);
    }
    var parts := ReadBundleRest(cur, c, count.value);
    if parts.Err? {
      return Err(parts.error);
    }
    r := Ok(BuildBundle((count.value, parts.value)));
  }

  lemma BundleIsChecked(c: Codec, bytes: seq<Byte>)
    ensures BundleF(c).read(bytes) ==
            match BundleFieldsF(c).read(bytes)
            case Err(e) => Err(e)
            case Ok((bundle, rest)) => if c.bundleOk(bundle) then Ok((bundle, rest)) else Err(BadProof)
  {
  }

  /** `ShieldedBundle::from_bytes`; what is wrong with bytes it refuses does not matter to its callers. */
  method DecodeBundle(c: Codec, bytes: seq<Byte>) returns (r: Option<Bundle>)
    ensures r == match DecodeAll(BundleF(c), bytes)
                 case Err(_) => None
                 case Ok(bundle) => Some(bundle)
  {
    BundleIsChecked(c, bytes);
    var cur := new Cursor(bytes);
    var bundle := ReadBundleFields(cur, c);
    if bundle.Err? {
      return None;
    }
    if cur.left != [] {
      return None;
    }
    r := if c.bundleOk(bundle.value) then Some(bundle.value) else None;
  }

  /** A 4-byte length, bounded, and that many bytes, which must be one whole bundle. */
  method ReadSizedBundle(cur: Cursor, c: Codec) returns (r: Result<Bundle, WireError>)
    modifies cur
    ensures Outcome(Within(Prefixed(4, MaxBundleBytes(c)), BundleF(c), BadProof).read(old(cur.left)), r, cur.left)
  {
    var n := cur.Field(Unsigned(4));
    if n.Err? {
      return Err(n.error);
    }
    if n.value > MaxBundleBytes(c) {
      return Err(TooLarge);
    }
    var bytes := cur.Field(Raw(n.value));
    if bytes.Err? {
      return Err(bytes.error);
    }
    var bundle := DecodeBundle(c, bytes.value);
    if bundle.None? {
      return Err(BadProof);
    }
    r := Ok(bundle.value);
  }

  /** A bundle behind its tag and length; the length is checked before the bytes are taken. */
  method ReadOptionalBundle(cur: Cursor, c: Codec) returns (r: Result<Option<Bundle>, WireError>)
    modifies cur
    ensures Outcome(OptionalBundleF(c).read(old(cur.left)), r, cur.left)
  {
    var tag := cur.Field(ByteF);
    if tag.Err? {
      return Err(tag.error);
    }
    if tag.value == 0 {
      return Ok(None);
    }
    if tag.value != 1 {
      return Err(BadTag);
    }
    var bundle := ReadSizedBundle(cur, c);
    if bundle.Err? {
      return Err(bundle.error);
    }
    r := Ok(Some(bundle.value));
  }

  /** A range proof exactly when there are outputs. */
  method ReadProof(cur: Cursor, c: Codec, outputs: seq<Output>) returns (r: Result<Option<seq<Byte>>, WireError>)
    modifies cur
    ensures Outcome(ProofF(c, outputs).read(old(cur.left)), r, cur.left)
  {
    if outputs == [] {
      return Ok(None);
    }
    var proof := cur.Field(RangeProofF(c));
    if proof.Err? {
      return Err(proof.error);
    }
    r := Ok(Some(proof.value));
  }

  /** Crossing and bundle, for the versions on the allow-list. */
  method ReadCrossing(cur: Cursor, c: Codec, version: Byte) returns (r: Result<(I64, Option<Bundle>), WireError>)
    modifies cur
    ensures Outcome(VersionTailF(c, version).read(old(cur.left)), r, cur.left)
  {
    if version == TX_VERSION {
      return Ok((0, None));
    }
    if version != TX_VERSION_SHIELDED {
      return Err(BadTag);
    }
    var cross := cur.Field(I64F);
    if cross.Err? {
      return Err(cross.error);
    }
    var shielded := ReadOptionalBundle(cur, c);
    if shielded.Err? {
      return Err(shielded.error);
    }
    r := Ok((cross.value, shielded.value));
  }

  /** `read_transaction`. */
  method ReadTransaction(cur: Cursor, c: Codec) returns (r: Result<Transaction, WireError>)
    modifies cur
    ensures Outcome(TransactionF(c).read(old(cur.left)), r, cur.left)
  {
    ghost var expected := TransactionF(c).read(cur.left);
    ghost var tail := (head: TxHead) => TxTailF(c, head);
    InsideMapped(Then(TxHeadF(c), tail), BuildTx, TxParts, cur.left);
    AfterThen(expected, BuildTx, TxHeadF(c), tail, cur.left);
    var head := ReadTxHead(cur, c);
    if head.Err? {
      return Err(head.error);
    }
    var (version, (txPublic, (additional, (fee, (inputs, outputs))))) := head.value;
    ghost var build := (p: TxTail) => BuildTx((head.value, p));
    AfterPair(expected, build, ProofF(c, outputs), VersionTailF(c, version), cur.left);
    var proof := ReadProof(cur, c, outputs);
    if proof.Err? {
      return Err(proof.error);
    }
    var crossing := ReadCrossing(cur, c, version);
    if crossing.Err? {
      return Err(crossing.error);
    }
    r := Ok(Transaction(version, txPublic, additional, fee, inputs, outputs, proof.value, crossing.value.0,
      crossing.value.1));
  }

  /** `decode_transaction`: bytes left over are an error. */
  method DecodeTransaction(c: Codec, bytes: seq<Byte>) returns (r: Result<Transaction, WireError>)
    ensures r == DecodeAll(TransactionF(c), bytes)
  {
    var cur := new Cursor(bytes);
    var tx := ReadTransaction(cur, c);
    if tx.Err? {
      return Err(tx.error);
    }
    if cur.left != [] {
      return Err(TrailingBytes);
    }
    r := Ok(tx.value);
  }

  // --- blocks --------------------------------------------------------------

  /** `read_block_header`. */
  method ReadHeader(cur: Cursor) returns (r: Result<BlockHeader, WireError>)
    modifies cur
    ensures Outcome(HeaderF.read(old(cur.left)), r, cur.left)
  {
    ghost var expected := HeaderF.read(cur.left);
    ghost var f4 := Pair(Array32F, U32F);
    ghost var f3 := Pair(U64F, f4);
    ghost var f2 := Pair(ByteF, f3);
    InsideMapped(Pair(ByteF, f2), BuildHeader, HeaderPartsOf, cur.left);
    AfterPair(expected, BuildHeader, ByteF, f2, cur.left);
    var major := cur.Field(ByteF);
    if major.Err? {
      return Err(major.error);
    }
    ghost var build2 := (p: (Byte, (U64, (Bytes32, U32)))) => BuildHeader((major.value, p));
    AfterPair(expected, build2, ByteF, f3, cur.left);
    var minor := cur.Field(ByteF);
    if minor.Err? {
      return Err(minor.error);
    }
    ghost var build3 := (p: (U64, (Bytes32, U32))) => build2((minor.value, p));
    AfterPair(expected, build3, U64F, f4, cur.left);
    var timestamp := cur.Field(U64F);
    if timestamp.Err? {
      return Err(timestamp.error);
    }
    ghost var build4 := (p: (Bytes32, U32)) => build3((timestamp.value, p));
    AfterPair(expected, build4, Array32F, U32F, cur.left);
    var prevId := cur.Field(Array32F);
    if prevId.Err? {
      return Err(prevId.error);
    }
    var nonce := cur.Field(U32F);
    if nonce.Err? {
      return Err(nonce.error);
    }
    r := Ok(BlockHeader(major.value, minor.value, timestamp.value, prevId.value, nonce.value));
  }

  /** `read_coinbase_output`. */
  method ReadCoinbaseOutput(cur: Cursor, c: Codec) returns (r: Result<CoinbaseOutput, WireError>)
    modifies cur
    ensures Outcome(CoinbaseOutputF(c).read(old(cur.left)), r, cur.left)
  {
    var key := cur.Field(PointF(c.keyOk));
    if key.Err? {
      return Err(key.error);
    }
    var amount := cur.Field(U64F);
    if amount.Err? {
      return Err(amount.error);
    }
    var commitment := cur.Field(PointF(c.commitmentOk));
    if commitment.Err? {
      return Err(commitment.error);
    }
    r := Ok(CoinbaseOutput(key.value, amount.value, commitment.value));
  }

  method ReadCoinbaseItems(cur: Cursor, c: Codec, n: nat) returns (r: Result<seq<CoinbaseOutput>, WireError>)
    modifies cur
    ensures Outcome(ReadItems(CoinbaseOutputF(c), n, old(cur.left)), r, cur.left)
  {
    var out: seq<CoinbaseOutput> := [];
    ReadingStarts(CoinbaseOutputF(c), n, cur.left);
    for i := 0 to n
      invariant Reading(CoinbaseOutputF(c), n, old(cur.left), i, out, cur.left)
    {
      ghost var before := cur.left;
      var x := ReadCoinbaseOutput(cur, c);
      ReadingGoesOn(CoinbaseOutputF(c), n, old(cur.left), i, out, before, x, cur.left);
      if x.Err? {
        return Err(x.error);
      }
      out := out + [x.value];
    }
    ReadingEnds(CoinbaseOutputF(c), n, old(cur.left), out, cur.left);
    r := Ok(out);
  }

  method ReadCoinbaseOutputs(cur: Cursor, c: Codec) returns (r: Result<seq<CoinbaseOutput>, WireError>)
    modifies cur
    ensures Outcome(Counted(4, MAX_COMMITMENTS, CoinbaseOutputF(c)).read(old(cur.left)), r, cur.left)
  {
    CountedReads(MAX_COMMITMENTS, CoinbaseOutputF(c), cur.left);
    var n := cur.Count(MAX_COMMITMENTS);
    if n.Err? {
      return Err(n.error);
    }
    r := ReadCoinbaseItems(cur, c, n.value);
  }

  /** Height, key and outputs of a coinbase. */
  method ReadCoinbaseHead(cur: Cursor, c: Codec) returns (r: Result<CoinbaseHead, WireError>)
    modifies cur
    ensures Outcome(CoinbaseHeadF(c).read(old(cur.left)), r, cur.left)
  {
    var height := cur.Field(U64F);
    if height.Err? {
      return Err(height.error);
    }
    var txPublic := cur.Field(PointF(c.keyOk));
    if txPublic.Err? {
      return Err(txPublic.error);
    }
    var outputs := ReadCoinbaseOutputs(cur, c);
    if outputs.Err? {
      return Err(outputs.error);
    }
    r := Ok((height.value, (txPublic.value, outputs.value)));
  }

  /** `read_coinbase`: only an empty output list is followed by a bundle tag. */
  method ReadCoinbase(cur: Cursor, c: Codec) returns (r: Result<Coinbase, WireError>)
    modifies cur
    ensures Outcome(CoinbaseF(c).read(old(cur.left)), r, cur.left)
  {
    ghost var expected := CoinbaseF(c).read(cur.left);
    ghost var tail := (head: CoinbaseHead) => CoinbaseTailF(c, head);
    InsideMapped(Then(CoinbaseHeadF(c), tail), BuildCoinbase, CoinbaseParts, cur.left);
    AfterThen(expected, BuildCoinbase, CoinbaseHeadF(c), tail, cur.left);
    var head := ReadCoinbaseHead(cur, c);
    if head.Err? {
      return Err(head.error);
    }
    var (height, (txPublic, outputs)) := head.value;
    var shielded: Option<Bundle> := None;
    if outputs == [] {
      var bundle := ReadOptionalBundle(cur, c);
      if bundle.Err? {
        return Err(bundle.error);
      }
      shielded := bundle.value;
    }
    r := Ok(Coinbase(height, txPublic, outputs, shielded));
  }

  /** `read_block`. */
  method ReadBlock(cur: Cursor, c: Codec) returns (r: Result<Block, WireError>)
    modifies cur
    ensures Outcome(BlockF(c).read(old(cur.left)), r, cur.left)
  {
    ghost var expected := BlockF(c).read(cur.left);
    ghost var hashesF := Counted(4, MAX_TXS_PER_BLOCK, Array32F);
    InsideMapped(Pair(HeaderF, Pair(CoinbaseF(c), hashesF)), BuildBlock, BlockPartsOf, cur.left);
    AfterPair(expected, BuildBlock, HeaderF, Pair(CoinbaseF(c), hashesF), cur.left);
    var header := ReadHeader(cur);
    if header.Err? {
      return Err(header.error);
    }
    ghost var build := (p: (Coinbase, seq<Bytes32>)) => BuildBlock((header.value, p));
    AfterPair(expected, build, CoinbaseF(c), hashesF, cur.left);
    var coinbase := ReadCoinbase(cur, c);
    if coinbase.Err? {
      return Err(coinbase.error);
    }
    var hashes := cur.Vec(MAX_TXS_PER_BLOCK, Array32F);
    if hashes.Err? {
      return Err(hashes.error);
    }
    r := Ok(Block(header.value, coinbase.value, hashes.value));
  }

  /** `decode_block`. */
  method DecodeBlock(c: Codec, bytes: seq<Byte>) returns (r: Result<Block, WireError>)
    ensures r == DecodeAll(BlockF(c), bytes)
  {
    var cur := new Cursor(bytes);
    var block := ReadBlock(cur, c);
    if block.Err? {
      return Err(block.error);
    }
    if cur.left != [] {
      return Err(TrailingBytes);
    }
    r := Ok(block.value);
  }

  // --- messages ------------------------------------------------------------

  /** The phase byte of a gossiped transaction. */
  method ReadPhase(cur: Cursor) returns (r: Result<Phase, WireError>)
    modifies cur
    ensures Outcome(PhaseF.read(old(cur.left)), r, cur.left)
  {
    InsideChecked(ByteF, (b: Byte) => b <= 1, BadTag, cur.left);
    InsideMapped(Checked(ByteF, (b: Byte) => b <= 1, BadTag), PhaseOf, PhaseTag, cur.left);
    var tag := cur.Field(ByteF);
    if tag.Err? {
      return Err(tag.error);
    }
    if tag.value == 0 {
      return Ok(Stem);
    }
    if tag.value == 1 {
      return Ok(Fluff);
    }
    r := Err(BadTag);
  }

  /** Address bytes and port. */
  method ReadHost(cur: Cursor, n: nat) returns (r: Result<(seq<Byte>, U16), WireError>)
    modifies cur
    ensures Outcome(Pair(Raw(n), U16F).read(old(cur.left)), r, cur.left)
  {
    var ip := cur.Field(Raw(n));
    if ip.Err? {
      return Err(ip.error);
    }
    var port := cur.Field(U16F);
    if port.Err? {
      return Err(port.error);
    }
    r := Ok((ip.value, port.value));
  }

  /** By address family; an IPv6 address comes without flow information and scope. */
  method ReadAddrBody(cur: Cursor, tag: Byte) returns (r: Result<SocketAddr, WireError>)
    modifies cur
    ensures Outcome(AddrBodyF(tag).read(old(cur.left)), r, cur.left)
  {
    if tag == ADDR_V4 {
      InsideMapped(Pair(Raw(4), U16F), BuildV4, AddrParts, cur.left);
      var host := ReadHost(cur, 4);
      r := if host.Ok? then Ok(V4(host.value.0, host.value.1)) else Err(host.error);
    } else if tag == ADDR_V6 {
      InsideMapped(Pair(Raw(16), U16F), BuildV6, AddrParts, cur.left);
      var host := ReadHost(cur, 16);
      r := if host.Ok? then Ok(V6(host.value.0, host.value.1, 0, 0)) else Err(host.error);
    } else {
      r := Err(BadTag);
    }
  }

  /** `read_socket_addr`. */
  method ReadSocketAddr(cur: Cursor) returns (r: Result<SocketAddr, WireError>)
    modifies cur
    ensures Outcome(AddrF.read(old(cur.left)), r, cur.left)
  {
    ghost var expected := AddrF.read(cur.left);
    InsideMapped(Then(ByteF, AddrBodyF), AddrOf, TaggedAddr, cur.left);
    AfterThen(expected, AddrOf, ByteF, AddrBodyF, cur.left);
    var tag := cur.Field(ByteF);
    if tag.Err? {
      return Err(tag.error);
    }
    r := ReadAddrBody(cur, tag.value);
  }

  method ReadTxMessage(cur: Cursor, c: Codec) returns (r: Result<Message, WireError>)
    modifies cur
    ensures Outcome(TxBodyF(c).read(old(cur.left)), r, cur.left)
  {
    ghost var expected := TxBodyF(c).read(cur.left);
    InsideMapped(Pair(TransactionF(c), PhaseF), BuildTxMsg, TxPayloadOf, cur.left);
    AfterPair(expected, BuildTxMsg, TransactionF(c), PhaseF, cur.left);
    var tx := ReadTransaction(cur, c);
    if tx.Err? {
      return Err(tx.error);
    }
    var phase := ReadPhase(cur);
    if phase.Err? {
      return Err(phase.error);
    }
    r := Ok(Tx(tx.value, phase.value));
  }

  method ReadTxItems(cur: Cursor, c: Codec, n: nat) returns (r: Result<seq<Transaction>, WireError>)
    modifies cur
    ensures Outcome(ReadItems(TransactionF(c), n, old(cur.left)), r, cur.left)
  {
    var out: seq<Transaction> := [];
    ReadingStarts(TransactionF(c), n, cur.left);
    for i := 0 to n
      invariant Reading(TransactionF(c), n, old(cur.left), i, out, cur.left)
    {
      ghost var before := cur.left;
      var x := ReadTransaction(cur, c);
      ReadingGoesOn(TransactionF(c), n, old(cur.left), i, out, before, x, cur.left);
      if x.Err? {
        return Err(x.error);
      }
      out := out + [x.value];
    }
    ReadingEnds(TransactionF(c), n, old(cur.left), out, cur.left);
    r := Ok(out);
  }

  method ReadTransactions(cur: Cursor, c: Codec) returns (r: Result<seq<Transaction>, WireError>)
    modifies cur
    ensures Outcome(Counted(4, MAX_TXS_PER_BLOCK, TransactionF(c)).read(old(cur.left)), r, cur.left)
  {
    CountedReads(MAX_TXS_PER_BLOCK, TransactionF(c), cur.left);
    var n := cur.Count(MAX_TXS_PER_BLOCK);
    if n.Err? {
      return Err(n.error);
    }
    r := ReadTxItems(cur, c, n.value);
  }

  method ReadBlockMessage(cur: Cursor, c: Codec) returns (r: Result<Message, WireError>)
    modifies cur
    ensures Outcome(BlockBodyF(c).read(old(cur.left)), r, cur.left)
  {
    ghost var expected := BlockBodyF(c).read(cur.left);
    ghost var txsF := Counted(4, MAX_TXS_PER_BLOCK, TransactionF(c));
    InsideMapped(Pair(BlockF(c), txsF), BuildBlockMsg, BlockPayloadOf, cur.left);
    AfterPair(expected, BuildBlockMsg, BlockF(c), txsF, cur.left);
    var block := ReadBlock(cur, c);
    if block.Err? {
      return Err(block.error);
    }
    var txs := ReadTransactions(cur, c);
    if txs.Err? {
      return Err(txs.error);
    }
    r := Ok(BlockMsg(block.value, txs.value));
  }

  method ReadTipMessage(cur: Cursor) returns (r: Result<Message, WireError>)
    modifies cur
    ensures Outcome(TipBodyF.read(old(cur.left)), r, cur.left)
  {
    var network := cur.Field(U32F);
    if network.Err? {
      return Err(network.error);
    }
    var height := cur.Field(U64F);
    if height.Err? {
      return Err(height.error);
    }
    var tip := cur.Field(Array32F);
    if tip.Err? {
      return Err(tip.error);
    }
    var work := cur.Field(U128F);
    if work.Err? {
      return Err(work.error);
    }
    r := Ok(Tip(network.value, height.value, tip.value, work.value));
  }

  method ReadGetBlock(cur: Cursor) returns (r: Result<Message, WireError>)
    modifies cur
    ensures Outcome(GetBlockBodyF.read(old(cur.left)), r, cur.left)
  {
    var height := cur.Field(U64F);
    r := if height.Ok? then Ok(GetBlock(height.value)) else Err(height.error);
  }

  method ReadNoBlock(cur: Cursor) returns (r: Result<Message, WireError>)
    modifies cur
    ensures Outcome(NoBlockBodyF.read(old(cur.left)), r, cur.left)
  {
    var height := cur.Field(U64F);
    r := if height.Ok? then Ok(NoBlock(height.value)) else Err(height.error);
  }

  method ReadVersionMessage(cur: Cursor) returns (r: Result<Message, WireError>)
    modifies cur
    ensures Outcome(VersionBodyF.read(old(cur.left)), r, cur.left)
  {
    var network := cur.Field(U32F);
    if network.Err? {
      return Err(network.error);
    }
    var genesis := cur.Field(Array32F);
    if genesis.Err? {
      return Err(genesis.error);
    }
    var port := cur.Field(U16F);
    if port.Err? {
      return Err(port.error);
    }
    var nonce := cur.Field(U64F);
    if nonce.Err? {
      return Err(nonce.error);
    }
    r := Ok(Version(network.value, genesis.value, port.value, nonce.value));
  }

  method ReadAddrItems(cur: Cursor, n: nat) returns (r: Result<seq<SocketAddr>, WireError>)
    modifies cur
    ensures Outcome(ReadItems(AddrF, n, old(cur.left)), r, cur.left)
  {
    var out: seq<SocketAddr> := [];
    ReadingStarts(AddrF, n, cur.left);
    for i := 0 to n
      invariant Reading(AddrF, n, old(cur.left), i, out, cur.left)
    {
      ghost var before := cur.left;
      var x := ReadSocketAddr(cur);
      ReadingGoesOn(AddrF, n, old(cur.left), i, out, before, x, cur.left);
      if x.Err? {
        return Err(x.error);
      }
      out := out + [x.value];
    }
    ReadingEnds(AddrF, n, old(cur.left), out, cur.left);
    r := Ok(out);
  }

  method ReadAddrs(cur: Cursor) returns (r: Result<seq<SocketAddr>, WireError>)
    modifies cur
    ensures Outcome(Counted(4, MAX_PEERS_PER_MESSAGE, AddrF).read(old(cur.left)), r, cur.left)
  {
    CountedReads(MAX_PEERS_PER_MESSAGE, AddrF, cur.left);
    var n := cur.Count(MAX_PEERS_PER_MESSAGE);
    if n.Err? {
      return Err(n.error);
    }
    r := ReadAddrItems(cur, n.value);
  }

  method ReadPeersMessage(cur: Cursor) returns (r: Result<Message, WireError>)
    modifies cur
    ensures Outcome(PeersBodyF.read(old(cur.left)), r, cur.left)
  {
    var addrs := ReadAddrs(cur);
    if addrs.Err? {
      return Err(addrs.error);
    }
    r := Ok(Peers(addrs.value));
  }

  method ReadBody(cur: Cursor, c: Codec, tag: Byte) returns (r: Result<Message, WireError>)
    modifies cur
    ensures Outcome(BodyF(c, tag).read(old(cur.left)), r, cur.left)
  {
    if tag == 0 {
      r := ReadTxMessage(cur, c);
    } else if tag == 1 {
      r := ReadBlockMessage(cur, c);
    } else if tag == 2 {
      r := Ok(GetTip);
    } else if tag == 3 {
      r := ReadTipMessage(cur);
    } else if tag == 4 {
      r := ReadGetBlock(cur);
    } else if tag == 5 {
      r := ReadNoBlock(cur);
    } else if tag == 6 {
      r := ReadVersionMessage(cur);
    } else if tag == 7 {
      r := Ok(GetPeers);
    } else if tag == 8 {
      r := ReadPeersMessage(cur);
    } else {
      r := Err(BadTag);
    }
  }

  /** `decode_message`: tag, payload, and nothing after it. */
  method DecodeMessage(c: Codec, bytes: seq<Byte>) returns (r: Result<Message, WireError>)
    ensures r == DecodeAll(MessageF(c), bytes)
  {
    var cur := new Cursor(bytes);
    ghost var expected := MessageF(c).read(bytes);
    ghost var body := (tag: Byte) => BodyF(c, tag);
    InsideMapped(TaggedBodyF(c), MessageOf, TaggedMessage, bytes);
    AfterThen(expected, MessageOf, ByteF, body, bytes);
    var tag := cur.Field(ByteF);
    if tag.Err? {
      return Err(tag.error);
    }
    var message := ReadBody(cur, c, tag.value);
    if message.Err? {
      return Err(message.error);
    }
    if cur.left != [] {
      return Err(TrailingBytes);
    }
    r := Ok(message.value);
  }
}
