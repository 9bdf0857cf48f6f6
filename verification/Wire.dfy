/**
 The wire format (noct/core/src/wire.rs, with the bundle encoding of shielded.rs), put
 together from exact formats in the order the program reads and writes.
 */
module Wire {
  import opened Types
  import opened Data
  import opened LittleEndian
  import opened Formats

  const MAX_RING_SIZE: nat := 256
  const MAX_TXS_PER_BLOCK: nat := 8192
  const MAX_PEERS_PER_MESSAGE: nat := 1024
  const MAX_ACTIONS: nat := 512
  const ACTION_BYTES: nat := 884
  const ENC_CIPHERTEXT: nat := 580
  const OUT_CIPHERTEXT: nat := 80

  /** What the curve and proof libraries accept. `proofLength` finds a range proof at the front of a buffer. */
  datatype Codec = Codec(
    keyOk: Bytes32 -> bool,
    commitmentOk: Bytes32 -> bool,
    imageOk: Bytes32 -> bool,
    clsagOk: seq<Byte> -> bool,
    proofLength: seq<Byte> -> Option<nat>,
    actionOk: Action -> bool,
    flagsOk: Byte -> bool,
    anchorOk: Bytes32 -> bool,
    bundleOk: Bundle -> bool,
    bundleProofBytes: nat -> nat)

  /** A range proof ends where its own bytes say, whatever follows. */
  ghost predicate SelfDelimiting(c: Codec) {
    forall p: seq<Byte>, rest: seq<Byte> {:trigger c.proofLength(p + rest)} ::
      c.proofLength(p) == Some(|p|) <==> c.proofLength(p + rest) == Some(|p|)
  }

  // --- numbers and points --------------------------------------------------

  /** Formats in sequence, the second not depending on the first. */
  function Pair<A, B>(f: Format<A>, g: Format<B>): Format<(A, B)> {
    Then(f, (a: A) => g)
  }

  lemma PairExact<A(!new), B(!new)>(f: Format<A>, g: Format<B>)
    requires Exact(f) && Exact(g)
    ensures Exact(Pair(f, g))
  {
    ThenExact(f, (a: A) => g);
  }

  function AsByte(x: nat): Byte { if x < 0x100 then x else 0 }

  /** `x as u16`, which keeps the low 16 bits. */
  function AsU16(x: nat): U16 { x % 0x1_0000 }

  function AsU32(x: nat): U32 { if x < TWO_32 then x else 0 }

  function AsU64(x: nat): U64 { if x < TWO_64 then x else 0 }

  function AsU128(x: nat): U128 { if x < TWO_128 then x else 0 }

  const ByteF: Format<Byte> := Mapped(Unsigned(1), AsByte, (x: Byte) => x)
  const U16F: Format<U16> := Mapped(Unsigned(2), AsU16, (x: U16) => x)
  const U32F: Format<U32> := Mapped(Unsigned(4), AsU32, (x: U32) => x)
  const U64F: Format<U64> := Mapped(Unsigned(8), AsU64, (x: U64) => x)
  const U128F: Format<U128> := Mapped(Unsigned(16), AsU128, (x: U128) => x)

  /** An unsigned number of n bytes, kept in a type of just that range. */
  lemma {:induction false} NumberExact<T(!new)>(n: nat, narrow: nat -> T, widen: T -> nat)
    requires forall x: nat :: x < Power256(n) ==> widen(narrow(x)) == x
    ensures Exact(Mapped(Unsigned(n), narrow, widen))
  {
    UnsignedExact(n);
    MappedExact(Unsigned(n), narrow, widen);
  }

  /** The cast of a 2-byte number keeps all of it. */
  lemma U16Exact()
    ensures Exact(U16F)
  {
    Widths();
    forall x: nat | x < Power256(2)
      ensures AsU16(x) == x
    {
    }
    NumberExact(2, AsU16, (x: U16) => x);
  }

  lemma SmallNumbersExact()
    ensures Exact(ByteF) && Exact(U32F)
  {
    Widths();
    NumberExact(1, AsByte, (x: Byte) => x);
    NumberExact(4, AsU32, (x: U32) => x);
  }

  lemma LargeNumbersExact()
    ensures Exact(U64F) && Exact(U128F)
  {
    Widths();
    NumberExact(8, AsU64, (x: U64) => x);
    NumberExact(16, AsU128, (x: U128) => x);
  }

  lemma NumbersExact()
    ensures Exact(ByteF) && Exact(U16F) && Exact(U32F) && Exact(U64F) && Exact(U128F)
  {
    SmallNumbersExact();
    U16Exact();
    LargeNumbersExact();
  }

  /** Two's complement. */
  function SignedOf(x: U64): I64 { if x < TWO_63 then x else x - TWO_64 }

  function UnsignedOf(x: I64): U64 { if x >= 0 then x else x + TWO_64 }

  const I64F: Format<I64> := Mapped(U64F, SignedOf, UnsignedOf)

  lemma I64Exact()
    ensures Exact(I64F)
  {
    NumbersExact();
    MappedExact(U64F, SignedOf, UnsignedOf);
  }

  function Reversed(b: seq<Byte>): (r: seq<Byte>)
    ensures |r| == |b|
    ensures forall i :: 0 <= i < |b| ==> r[i] == b[|b| - 1 - i]
  {
    seq(|b|, i requires 0 <= i < |b| => b[|b| - 1 - i])
  }

  /** A 32-byte array as the number it spells, most significant byte first. */
  function NumberOf(b: seq<Byte>): Bytes32 {
    if FromLe(Reversed(b)) < TWO_256 then FromLe(Reversed(b)) else 0
  }

  function ArrayOf(x: Bytes32): (b: seq<Byte>)
    ensures |b| == 32
  {
    Reversed(ToLe(32, x))
  }

  lemma ArraysAreNumbers(b: seq<Byte>, x: Bytes32)
    ensures |b| == 32 ==> ArrayOf(NumberOf(b)) == b
    ensures NumberOf(ArrayOf(x)) == x
  {
    Widths();
    if |b| == 32 {
      FromToLe(Reversed(b));
      assert Reversed(Reversed(b)) == b;
    }
    ToFromLe(32, x);
    assert Reversed(Reversed(ToLe(32, x))) == ToLe(32, x);
  }

  const Array32F: Format<Bytes32> := Mapped(Raw(32), NumberOf, ArrayOf)

  lemma Array32Exact()
    ensures Exact(Array32F)
    ensures forall x: Bytes32 :: Array32F.fits(x)
  {
    RawExact(32);
    forall b: seq<Byte> | Raw(32).fits(b)
      ensures ArrayOf(NumberOf(b)) == b
    {
      ArraysAreNumbers(b, 0);
    }
    MappedExact(Raw(32), NumberOf, ArrayOf);
    forall x: Bytes32
      ensures Array32F.fits(x)
    {
      ArraysAreNumbers([], x);
    }
  }

  /** Points are read as arrays and must be canonical. */
  function PointF(ok: Bytes32 -> bool): Format<Bytes32> {
    Checked(Array32F, ok, BadPoint)
  }

  lemma PointExact(ok: Bytes32 -> bool)
    ensures Exact(PointF(ok))
  {
    Array32Exact();
    CheckedExact(Array32F, ok, BadPoint);
  }

  // --- proofs: opaque bytes a library recognises ---------------------------

  /** Exactly n bytes that a library accepts; anything else, a short buffer included, is `BadProof`. */
  function Blob(n: nat, ok: seq<Byte> -> bool): Format<seq<Byte>> {
    Format(
      (b: seq<Byte>) => |b| == n && ok(b),
      (b: seq<Byte>) => b,
      (s: seq<Byte>) => if |s| < n || !ok(s[..n]) then Err(BadProof) else Ok((s[..n], s[n..])))
  }

  lemma BlobExact(n: nat, ok: seq<Byte> -> bool)
    ensures Exact(Blob(n, ok))
  {
    var f := Blob(n, ok);
    forall x: seq<Byte>, rest: seq<Byte> | f.fits(x)
      ensures f.read(f.write(x) + rest) == Ok((x, rest))
    {
      assert (x + rest)[..n] == x && (x + rest)[n..] == rest;
    }
  }

  function RangeProofF(c: Codec): Format<seq<Byte>> {
    Format(
      (p: seq<Byte>) => c.proofLength(p) == Some(|p|),
      (p: seq<Byte>) => p,
      (s: seq<Byte>) =>
        match c.proofLength(s)
        case None => Err(BadProof)
        case Some(n) => if n > |s| then Err(BadProof) else Ok((s[..n], s[n..])))
  }

  lemma RangeProofExact(c: Codec)
    requires SelfDelimiting(c)
    ensures Exact(RangeProofF(c))
  {
    var f := RangeProofF(c);
    forall p: seq<Byte>, rest: seq<Byte> | f.fits(p)
      ensures f.read(f.write(p) + rest) == Ok((p, rest))
    {
      assert c.proofLength(p + rest) == Some(|p|);
      assert (p + rest)[..|p|] == p && (p + rest)[|p|..] == rest;
    }
    forall s: seq<Byte> | f.read(s).Ok?
      ensures f.fits(f.read(s).value.0) && s == f.write(f.read(s).value.0) + f.read(s).value.1
    {
      var n := c.proofLength(s).value;
      assert s[..n] + s[n..] == s;
    }
  }

  // --- optional parts ------------------------------------------------------

  function Present<T>(f: Format<T>): Format<Option<T>> {
    Format(
      (x: Option<T>) => x.Some? && f.fits(x.value),
      (x: Option<T>) => if x.Some? then f.write(x.value) else [],
      (s: seq<Byte>) =>
        match f.read(s)
        case Err(e) => Err(e)
        case Ok((x, rest)) => Ok((Some(x), rest)))
  }

  lemma PresentExact<T(!new)>(f: Format<T>)
    requires Exact(f)
    ensures Exact(Present(f))
  {
    var h := Present(f);
    forall x: Option<T>, rest: seq<Byte> | h.fits(x)
      ensures h.read(h.write(x) + rest) == Ok((x, rest))
    {
      assert f.read(f.write(x.value) + rest) == Ok((x.value, rest));
    }
    forall s: seq<Byte> | h.read(s).Ok?
      ensures h.fits(h.read(s).value.0) && s == h.write(h.read(s).value.0) + h.read(s).value.1
    {
      assert f.read(s).Ok?;
    }
  }

  function OptionBody<T(==)>(f: Format<T>, tag: Byte): Format<Option<T>> {
    if tag == 0 then Nothing(None) else if tag == 1 then Present(f) else Never(BadTag)
  }

  /** A tag byte, 0 or 1, then the value if there is one. */
  function OptionF<T(==)>(f: Format<T>): Format<Option<T>> {
    Mapped(
      Then(ByteF, (tag: Byte) => OptionBody(f, tag)),
      (p: (Byte, Option<T>)) => p.1,
      (x: Option<T>) => (if x.Some? then 1 else 0, x))
  }

  lemma OptionExact<T(!new)>(f: Format<T>)
    requires Exact(f)
    ensures Exact(OptionF(f))
  {
    NumbersExact();
    var body := (tag: Byte) => OptionBody(f, tag);
    forall tag: Byte
      ensures Exact(body(tag))
    {
      NothingExact<Option<T>>(None);
      PresentExact(f);
      NeverExact<Option<T>>(BadTag);
    }
    ThenExact(ByteF, body);
    MappedExact(Then(ByteF, body), (p: (Byte, Option<T>)) => p.1, (x: Option<T>) => (if x.Some? then 1 else 0, x));
  }

  // --- bundles -------------------------------------------------------------

  type ActionParts =
    (Bytes32, (Bytes32, (Bytes32, (Bytes32, (Bytes32, (seq<Byte>, (seq<Byte>, seq<Byte>)))))))

  function BuildAction(p: ActionParts): Action {
    Action(p.0, p.1.0, p.1.1.0, p.1.1.1.0, p.1.1.1.1.0, p.1.1.1.1.1.0, p.1.1.1.1.1.1.0, p.1.1.1.1.1.1.1)
  }

  function ActionPartsOf(a: Action): ActionParts {
    (a.cvNet, (a.nullifier, (a.rk, (a.cmx, (a.epk, (a.encCiphertext, (a.outCiphertext, a.spendAuth)))))))
  }

  const ActionFields: Format<ActionParts> :=
    Pair(Array32F, Pair(Array32F, Pair(Array32F, Pair(Array32F, Pair(Array32F,
      Pair(Raw(ENC_CIPHERTEXT), Pair(Raw(OUT_CIPHERTEXT), Raw(64))))))))

  function ActionF(c: Codec): Format<Action> {
    Checked(Mapped(ActionFields, BuildAction, ActionPartsOf), c.actionOk, BadPoint)
  }

  lemma ActionExact(c: Codec)
    ensures Exact(ActionF(c))
  {
    Array32Exact();
    RawExact(ENC_CIPHERTEXT);
    RawExact(OUT_CIPHERTEXT);
    RawExact(64);
    var f7 := Pair(Raw(OUT_CIPHERTEXT), Raw(64));
    PairExact(Raw(OUT_CIPHERTEXT), Raw(64));
    var f6 := Pair(Raw(ENC_CIPHERTEXT), f7);
    PairExact(Raw(ENC_CIPHERTEXT), f7);
    var f5 := Pair(Array32F, f6);
    PairExact(Array32F, f6);
    var f4 := Pair(Array32F, f5);
    PairExact(Array32F, f5);
    var f3 := Pair(Array32F, f4);
    PairExact(Array32F, f4);
    var f2 := Pair(Array32F, f3);
    PairExact(Array32F, f3);
    PairExact(Array32F, f2);
    MappedExact(ActionFields, BuildAction, ActionPartsOf);
    CheckedExact(Mapped(ActionFields, BuildAction, ActionPartsOf), c.actionOk, BadPoint);
  }

  type BundleRest = (seq<Action>, (Byte, (I64, (Bytes32, (seq<Byte>, seq<Byte>)))))

  function BuildBundle(p: (U16, BundleRest)): Bundle {
    var (actions, (flags, (valueBalance, (anchor, (proof, binding))))) := p.1;
    Bundle(actions, flags, valueBalance, anchor, proof, binding)
  }

  function BundlePartsOf(b: Bundle): (U16, BundleRest) {
    (AsU16(|b.actions|), (b.actions, (b.flags, (b.valueBalance, (b.anchor, (b.proof, b.binding))))))
  }

  const ActionCountF: Format<U16> := Checked(U16F, (n: U16) => 1 <= n <= MAX_ACTIONS, TooLarge)

  /** What follows the action count; the proof's length is derived from it, never read. */
  function BundleRestF(c: Codec, n: U16): Format<BundleRest> {
    Pair(Times(ActionF(c), n),
      Pair(Checked(ByteF, c.flagsOk, BadTag), Pair(I64F, Pair(PointF(c.anchorOk),
        Pair(Raw(c.bundleProofBytes(n)), Raw(64))))))
  }

  function BundleF(c: Codec): Format<Bundle> {
    Checked(Mapped(Then(ActionCountF, (n: U16) => BundleRestF(c, n)), BuildBundle, BundlePartsOf), c.bundleOk, BadProof)
  }

  lemma BundleRestExact(c: Codec, n: U16)
    ensures Exact(BundleRestF(c, n))
  {
    ActionExact(c);
    TimesExact(ActionF(c), n);
    NumbersExact();
    CheckedExact(ByteF, c.flagsOk, BadTag);
    I64Exact();
    PointExact(c.anchorOk);
    RawExact(c.bundleProofBytes(n));
    RawExact(64);
    var f5 := Pair(Raw(c.bundleProofBytes(n)), Raw(64));
    PairExact(Raw(c.bundleProofBytes(n)), Raw(64));
    var f4 := Pair(PointF(c.anchorOk), f5);
    PairExact(PointF(c.anchorOk), f5);
    var f3 := Pair(I64F, f4);
    PairExact(I64F, f4);
    var f2 := Pair(Checked(ByteF, c.flagsOk, BadTag), f3);
    PairExact(Checked(ByteF, c.flagsOk, BadTag), f3);
    PairExact(Times(ActionF(c), n), f2);
  }

  lemma BundleExact(c: Codec)
    ensures Exact(BundleF(c))
  {
    NumbersExact();
    CheckedExact(U16F, (n: U16) => 1 <= n <= MAX_ACTIONS, TooLarge);
    var rest := (n: U16) => BundleRestF(c, n);
    forall n: U16
      ensures Exact(rest(n))
    {
      BundleRestExact(c, n);
    }
    ThenExact(ActionCountF, rest);
    forall p | Then(ActionCountF, rest).fits(p)
      ensures BundlePartsOf(BuildBundle(p)) == p
    {
      assert Times(ActionF(c), p.0).fits(p.1.0);
    }
    MappedExact(Then(ActionCountF, rest), BuildBundle, BundlePartsOf);
    CheckedExact(Mapped(Then(ActionCountF, rest), BuildBundle, BundlePartsOf), c.bundleOk, BadProof);
  }

  function MaxBundleBytes(c: Codec): nat {
    2 + MAX_ACTIONS * ACTION_BYTES + 1 + 8 + 32 + c.bundleProofBytes(MAX_ACTIONS) + 64
  }

  /** A bundle inside something larger: presence tag, bounded length, bytes. */
  function OptionalBundleF(c: Codec): Format<Option<Bundle>> {
    OptionF(Within(Prefixed(4, MaxBundleBytes(c)), BundleF(c), BadProof))
  }

  lemma OptionalBundleExact(c: Codec)
    ensures Exact(OptionalBundleF(c))
  {
    BundleExact(c);
    PrefixedExact(4, MaxBundleBytes(c));
    WithinExact(Prefixed(4, MaxBundleBytes(c)), BundleF(c), BadProof);
    OptionExact(Within(Prefixed(4, MaxBundleBytes(c)), BundleF(c), BadProof));
  }

  // --- transactions --------------------------------------------------------

  function BuildMember(p: (Bytes32, Bytes32)): RingMember {
    RingMember(p.0, p.1)
  }

  function MemberParts(m: RingMember): (Bytes32, Bytes32) {
    (m.key, m.commitment)
  }

  function RingMemberF(c: Codec): Format<RingMember> {
    Mapped(Pair(PointF(c.keyOk), PointF(c.commitmentOk)), BuildMember, MemberParts)
  }

  type InputRest = (Bytes32, (Bytes32, seq<Byte>))

  /** Image, pseudo-out, and a signature with one response per ring member. */
  function InputRestF(c: Codec, ring: seq<RingMember>): Format<InputRest> {
    Pair(PointF(c.imageOk), Pair(PointF(c.commitmentOk), Blob(32 * (|ring| + 2), c.clsagOk)))
  }

  function BuildInput(p: (seq<RingMember>, InputRest)): Input {
    Input(p.0, p.1.0, p.1.1.0, p.1.1.1)
  }

  function InputParts(x: Input): (seq<RingMember>, InputRest) {
    (x.ring, (x.keyImage, (x.pseudoOut, x.clsag)))
  }

  function RingF(c: Codec): Format<seq<RingMember>> {
    Counted(4, MAX_RING_SIZE, RingMemberF(c))
  }

  function InputF(c: Codec): Format<Input> {
    Mapped(Then(RingF(c), (ring: seq<RingMember>) => InputRestF(c, ring)), BuildInput, InputParts)
  }

  function BuildOutput(p: (Bytes32, (Bytes32, U64))): Output {
    Output(p.0, p.1.0, p.1.1)
  }

  function OutputParts(x: Output): (Bytes32, (Bytes32, U64)) {
    (x.oneTimeKey, (x.commitment, x.encryptedAmount))
  }

  function OutputF(c: Codec): Format<Output> {
    Mapped(Pair(PointF(c.keyOk), Pair(PointF(c.commitmentOk), U64F)), BuildOutput, OutputParts)
  }

  lemma RingMemberExact(c: Codec)
    ensures Exact(RingMemberF(c))
  {
    PointExact(c.keyOk);
    PointExact(c.commitmentOk);
    PairExact(PointF(c.keyOk), PointF(c.commitmentOk));
    MappedExact(Pair(PointF(c.keyOk), PointF(c.commitmentOk)), BuildMember, MemberParts);
  }

  lemma InputExact(c: Codec)
    ensures Exact(InputF(c))
  {
    RingMemberExact(c);
    CountedExact(4, MAX_RING_SIZE, RingMemberF(c));
    var rest := (ring: seq<RingMember>) => InputRestF(c, ring);
    forall ring: seq<RingMember>
      ensures Exact(rest(ring))
    {
      PointExact(c.imageOk);
      PointExact(c.commitmentOk);
      BlobExact(32 * (|ring| + 2), c.clsagOk);
      PairExact(PointF(c.commitmentOk), Blob(32 * (|ring| + 2), c.clsagOk));
      PairExact(PointF(c.imageOk), Pair(PointF(c.commitmentOk), Blob(32 * (|ring| + 2), c.clsagOk)));
    }
    ThenExact(RingF(c), rest);
    MappedExact(Then(RingF(c), rest), BuildInput, InputParts);
  }

  lemma OutputExact(c: Codec)
    ensures Exact(OutputF(c))
  {
    NumbersExact();
    PointExact(c.keyOk);
    PointExact(c.commitmentOk);
    PairExact(PointF(c.commitmentOk), U64F);
    PairExact(PointF(c.keyOk), Pair(PointF(c.commitmentOk), U64F));
    MappedExact(Pair(PointF(c.keyOk), Pair(PointF(c.commitmentOk), U64F)), BuildOutput, OutputParts);
  }

  type TxHead = (Byte, (Bytes32, (seq<Bytes32>, (U64, (seq<Input>, seq<Output>)))))
  type TxTail = (Option<seq<Byte>>, (I64, Option<Bundle>))

  function TxHeadF(c: Codec): Format<TxHead> {
    Pair(ByteF, Pair(PointF(c.keyOk), Pair(Counted(4, MAX_COMMITMENTS, PointF(c.keyOk)),
      Pair(U64F, Pair(Counted(4, MAX_INPUTS, InputF(c)), Counted(4, MAX_COMMITMENTS, OutputF(c)))))))
  }

  /** The version is an allow-list: an unknown one is refused, after everything before it was read. */
  function Versioned(f: Format<(I64, Option<Bundle>)>, version: Byte): Format<(I64, Option<Bundle>)> {
    if version == TX_VERSION then Nothing((0, None))
    else if version == TX_VERSION_SHIELDED then f
    else if version < TX_VERSION then Never(BadTag)
    else Refused(f, BadTag)
  }

  function VersionTailF(c: Codec, version: Byte): Format<(I64, Option<Bundle>)> {
    Versioned(Pair(I64F, OptionalBundleF(c)), version)
  }

  function ProofF(c: Codec, outputs: seq<Output>): Format<Option<seq<Byte>>> {
    if outputs == [] then Absent(RangeProofF(c)) else Present(RangeProofF(c))
  }

  /** A range proof follows exactly when there are outputs. */
  function TxTailF(c: Codec, head: TxHead): Format<TxTail> {
    Pair(
      ProofF(c, head.1.1.1.1.1),
      VersionTailF(c, head.0))
  }

  function BuildTx(p: (TxHead, TxTail)): Transaction {
    var (version, (txPublic, (additional, (fee, (inputs, outputs))))) := p.0;
    var (rangeProof, (cross, shielded)) := p.1;
    Transaction(version, txPublic, additional, fee, inputs, outputs, rangeProof, cross, shielded)
  }

  function TxParts(tx: Transaction): (TxHead, TxTail) {
    ((tx.version, (tx.txPublic, (tx.additionalTxPublic, (tx.fee, (tx.inputs, tx.outputs))))),
     (tx.rangeProof, (tx.cross, tx.shielded)))
  }

  function TransactionF(c: Codec): Format<Transaction> {
    Mapped(Then(TxHeadF(c), (head: TxHead) => TxTailF(c, head)), BuildTx, TxParts)
  }

  lemma TxHeadExact(c: Codec)
    ensures Exact(TxHeadF(c))
  {
    NumbersExact();
    PointExact(c.keyOk);
    CountedExact(4, MAX_COMMITMENTS, PointF(c.keyOk));
    InputExact(c);
    CountedExact(4, MAX_INPUTS, InputF(c));
    OutputExact(c);
    CountedExact(4, MAX_COMMITMENTS, OutputF(c));
    var f5 := Pair(Counted(4, MAX_INPUTS, InputF(c)), Counted(4, MAX_COMMITMENTS, OutputF(c)));
    PairExact(Counted(4, MAX_INPUTS, InputF(c)), Counted(4, MAX_COMMITMENTS, OutputF(c)));
    var f4 := Pair(U64F, f5);
    PairExact(U64F, f5);
    var f3 := Pair(Counted(4, MAX_COMMITMENTS, PointF(c.keyOk)), f4);
    PairExact(Counted(4, MAX_COMMITMENTS, PointF(c.keyOk)), f4);
    var f2 := Pair(PointF(c.keyOk), f3);
    PairExact(PointF(c.keyOk), f3);
    PairExact(ByteF, f2);
  }

  lemma TxTailExact(c: Codec, head: TxHead)
    requires SelfDelimiting(c)
    ensures Exact(TxTailF(c, head))
  {
    RangeProofExact(c);
    AbsentExact(RangeProofF(c));
    PresentExact(RangeProofF(c));
    NothingExact<(I64, Option<Bundle>)>((0, None));
    I64Exact();
    OptionalBundleExact(c);
    PairExact(I64F, OptionalBundleF(c));
    NeverExact<(I64, Option<Bundle>)>(BadTag);
    RefusedExact(Pair(I64F, OptionalBundleF(c)), BadTag);
    PairExact(ProofF(c, head.1.1.1.1.1), VersionTailF(c, head.0));
  }

  lemma TransactionExact(c: Codec)
    requires SelfDelimiting(c)
    ensures Exact(TransactionF(c))
  {
    TxHeadExact(c);
    var tail := (head: TxHead) => TxTailF(c, head);
    forall head: TxHead
      ensures Exact(tail(head))
    {
      TxTailExact(c, head);
    }
    ThenExact(TxHeadF(c), tail);
    MappedExact(Then(TxHeadF(c), tail), BuildTx, TxParts);
  }

  // --- blocks --------------------------------------------------------------

  type HeaderParts = (Byte, (Byte, (U64, (Bytes32, U32))))

  function BuildHeader(p: HeaderParts): BlockHeader {
    BlockHeader(p.0, p.1.0, p.1.1.0, p.1.1.1.0, p.1.1.1.1)
  }

  function HeaderPartsOf(h: BlockHeader): HeaderParts {
    (h.majorVersion, (h.minorVersion, (h.timestamp, (h.prevId, h.nonce))))
  }

  const HeaderF: Format<BlockHeader> :=
    Mapped(Pair(ByteF, Pair(ByteF, Pair(U64F, Pair(Array32F, U32F)))), BuildHeader, HeaderPartsOf)

  lemma HeaderExact()
    ensures Exact(HeaderF)
  {
    NumbersExact();
    Array32Exact();
    PairExact(Array32F, U32F);
    PairExact(U64F, Pair(Array32F, U32F));
    PairExact(ByteF, Pair(U64F, Pair(Array32F, U32F)));
    PairExact(ByteF, Pair(ByteF, Pair(U64F, Pair(Array32F, U32F))));
    MappedExact(Pair(ByteF, Pair(ByteF, Pair(U64F, Pair(Array32F, U32F)))), BuildHeader, HeaderPartsOf);
  }

  function BuildCoinbaseOutput(p: (Bytes32, (U64, Bytes32))): CoinbaseOutput {
    CoinbaseOutput(p.0, p.1.0, p.1.1)
  }

  function CoinbaseOutputParts(x: CoinbaseOutput): (Bytes32, (U64, Bytes32)) {
    (x.oneTimeKey, (x.amount, x.commitment))
  }

  function CoinbaseOutputF(c: Codec): Format<CoinbaseOutput> {
    Mapped(Pair(PointF(c.keyOk), Pair(U64F, PointF(c.commitmentOk))), BuildCoinbaseOutput, CoinbaseOutputParts)
  }

  type CoinbaseHead = (U64, (Bytes32, seq<CoinbaseOutput>))

  function CoinbaseHeadF(c: Codec): Format<CoinbaseHead> {
    Pair(U64F, Pair(PointF(c.keyOk), Counted(4, MAX_COMMITMENTS, CoinbaseOutputF(c))))
  }

  /** The output count is the discriminant: only an empty list is followed by a bundle tag. */
  function CoinbaseTailF(c: Codec, head: CoinbaseHead): Format<Option<Bundle>> {
    if head.1.1 == [] then OptionalBundleF(c) else Nothing(None)
  }

  function BuildCoinbase(p: (CoinbaseHead, Option<Bundle>)): Coinbase {
    Coinbase(p.0.0, p.0.1.0, p.0.1.1, p.1)
  }

  function CoinbaseParts(x: Coinbase): (CoinbaseHead, Option<Bundle>) {
    ((x.height, (x.txPublic, x.outputs)), x.shielded)
  }

  function CoinbaseF(c: Codec): Format<Coinbase> {
    Mapped(Then(CoinbaseHeadF(c), (head: CoinbaseHead) => CoinbaseTailF(c, head)), BuildCoinbase, CoinbaseParts)
  }

  lemma CoinbaseExact(c: Codec)
    ensures Exact(CoinbaseF(c))
  {
    NumbersExact();
    PointExact(c.keyOk);
    PointExact(c.commitmentOk);
    PairExact(U64F, PointF(c.commitmentOk));
    PairExact(PointF(c.keyOk), Pair(U64F, PointF(c.commitmentOk)));
    MappedExact(Pair(PointF(c.keyOk), Pair(U64F, PointF(c.commitmentOk))), BuildCoinbaseOutput, CoinbaseOutputParts);
    CountedExact(4, MAX_COMMITMENTS, CoinbaseOutputF(c));
    PairExact(PointF(c.keyOk), Counted(4, MAX_COMMITMENTS, CoinbaseOutputF(c)));
    PairExact(U64F, Pair(PointF(c.keyOk), Counted(4, MAX_COMMITMENTS, CoinbaseOutputF(c))));
    var tail := (head: CoinbaseHead) => CoinbaseTailF(c, head);
    forall head: CoinbaseHead
      ensures Exact(tail(head))
    {
      OptionalBundleExact(c);
      NothingExact<Option<Bundle>>(None);
    }
    ThenExact(CoinbaseHeadF(c), tail);
    MappedExact(Then(CoinbaseHeadF(c), tail), BuildCoinbase, CoinbaseParts);
  }

  type BlockParts = (BlockHeader, (Coinbase, seq<Bytes32>))

  function BuildBlock(p: BlockParts): Block {
    Block(p.0, p.1.0, p.1.1)
  }

  function BlockPartsOf(b: Block): BlockParts {
    (b.header, (b.coinbase, b.txHashes))
  }

  function BlockF(c: Codec): Format<Block> {
    Mapped(Pair(HeaderF, Pair(CoinbaseF(c), Counted(4, MAX_TXS_PER_BLOCK, Array32F))), BuildBlock, BlockPartsOf)
  }

  lemma BlockExact(c: Codec)
    ensures Exact(BlockF(c))
  {
    HeaderExact();
    CoinbaseExact(c);
    Array32Exact();
    CountedExact(4, MAX_TXS_PER_BLOCK, Array32F);
    PairExact(CoinbaseF(c), Counted(4, MAX_TXS_PER_BLOCK, Array32F));
    PairExact(HeaderF, Pair(CoinbaseF(c), Counted(4, MAX_TXS_PER_BLOCK, Array32F)));
    MappedExact(Pair(HeaderF, Pair(CoinbaseF(c), Counted(4, MAX_TXS_PER_BLOCK, Array32F))), BuildBlock, BlockPartsOf);
  }
}
