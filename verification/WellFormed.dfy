/**
 What the wire format can carry, said outright, and the codec theorems over it: a buffer
 decodes to an object exactly when the object is well-formed and the buffer is its
 encoding (noct/core/src/wire.rs).
 */
module WellFormed {
  import opened Types
  import opened Data
  import opened LittleEndian
  import opened Formats
  import opened Wire
  import opened Encoders

  // --- well-formed objects -------------------------------------------------

  predicate InputWellFormed(c: Codec, x: Input) {
    && |x.ring| <= 256
    && (forall i :: 0 <= i < |x.ring| ==> c.keyOk(x.ring[i].key) && c.commitmentOk(x.ring[i].commitment))
    && c.imageOk(x.keyImage) && c.commitmentOk(x.pseudoOut)
    && |x.clsag| == 32 * (|x.ring| + 2) && c.clsagOk(x.clsag)
  }

  predicate OutputWellFormed(c: Codec, x: Output) {
    c.keyOk(x.oneTimeKey) && c.commitmentOk(x.commitment)
  }

  predicate ActionWellFormed(c: Codec, a: Action) {
    |a.encCiphertext| == 580 && |a.outCiphertext| == 80 && |a.spendAuth| == 64 && c.actionOk(a)
  }

  predicate BundleWellFormed(c: Codec, b: Bundle) {
    && 1 <= |b.actions| <= 512
    && (forall i :: 0 <= i < |b.actions| ==> ActionWellFormed(c, b.actions[i]))
    && c.flagsOk(b.flags) && c.anchorOk(b.anchor)
    && |b.proof| == c.bundleProofBytes(|b.actions|) && |b.binding| == 64
    && c.bundleOk(b)
  }

  /** A bundle inside something larger must also fit the length before it. */
  predicate EmbeddedWellFormed(c: Codec, b: Option<Bundle>) {
    b.Some? ==>
      BundleWellFormed(c, b.value) && |BundleBytes(b.value)| <= MaxBundleBytes(c) && |BundleBytes(b.value)| < TWO_32
  }

  predicate TxHeadWellFormed(c: Codec, tx: Transaction) {
    && c.keyOk(tx.txPublic)
    && |tx.additionalTxPublic| <= 16
    && (forall i :: 0 <= i < |tx.additionalTxPublic| ==> c.keyOk(tx.additionalTxPublic[i]))
    && |tx.inputs| <= 256 && (forall i :: 0 <= i < |tx.inputs| ==> InputWellFormed(c, tx.inputs[i]))
    && |tx.outputs| <= 16 && (forall i :: 0 <= i < |tx.outputs| ==> OutputWellFormed(c, tx.outputs[i]))
  }

  /** A proof exactly where there are outputs, of the length its own bytes tell. */
  predicate ProofWellFormed(c: Codec, outputs: seq<Output>, proof: Option<seq<Byte>>) {
    && (proof.Some? <==> outputs != [])
    && (proof.Some? ==> c.proofLength(proof.value) == Some(|proof.value|))
  }

  /** Version 1 carries neither crossing nor bundle, and there is no version but 1 and 2. */
  predicate CrossingWellFormed(c: Codec, tx: Transaction) {
    && (tx.version == 1 || tx.version == 2)
    && (tx.version == 1 ==> tx.cross == 0 && tx.shielded == None)
    && EmbeddedWellFormed(c, tx.shielded)
  }

  predicate TxWellFormed(c: Codec, tx: Transaction) {
    && TxHeadWellFormed(c, tx)
    && ProofWellFormed(c, tx.outputs, tx.rangeProof)
    && CrossingWellFormed(c, tx)
  }

  predicate CoinbaseWellFormed(c: Codec, x: Coinbase) {
    && c.keyOk(x.txPublic)
    && |x.outputs| <= 16
    && (forall i :: 0 <= i < |x.outputs| ==>
          c.keyOk(x.outputs[i].oneTimeKey) && c.commitmentOk(x.outputs[i].commitment))
    && (x.outputs != [] ==> x.shielded == None)
    && EmbeddedWellFormed(c, x.shielded)
  }

  predicate BlockWellFormed(c: Codec, b: Block) {
    CoinbaseWellFormed(c, b.coinbase) && |b.txHashes| <= 8192
  }

  // --- well-formed is what the formats fit ---------------------------------

  lemma {:induction false} AllFitEach<T>(f: Format<T>, xs: seq<T>)
    ensures AllFit(f, xs) <==> forall i :: 0 <= i < |xs| ==> f.fits(xs[i])
  {
    if xs != [] {
      AllFitEach(f, xs[1..]);
      assert forall i :: 0 < i < |xs| ==> xs[i] == xs[1..][i - 1];
      assert forall i :: 0 <= i < |xs| - 1 ==> xs[1..][i] == xs[i + 1];
    }
  }

  lemma PairFits<A, B>(f: Format<A>, g: Format<B>, a: A, b: B)
    ensures Pair(f, g).fits((a, b)) <==> f.fits(a) && g.fits(b)
  {
  }

  lemma ThenFits<A, B>(f: Format<A>, g: A -> Format<B>, a: A, b: B)
    ensures Then(f, g).fits((a, b)) <==> f.fits(a) && g(a).fits(b)
  {
  }

  lemma MappedFits<A, B>(f: Format<A>, build: A -> B, parts: B -> A, b: B)
    requires build(parts(b)) == b
    ensures Mapped(f, build, parts).fits(b) <==> f.fits(parts(b))
  {
  }

  lemma CountedFits<T>(max: nat, f: Format<T>, xs: seq<T>)
    requires max < TWO_32
    ensures Counted(4, max, f).fits(xs) <==> |xs| <= max && forall i :: 0 <= i < |xs| ==> f.fits(xs[i])
  {
    Widths();
    AllFitEach(f, xs);
  }

  lemma NumbersFit()
    ensures forall x: Byte :: ByteF.fits(x)
    ensures forall x: U16 :: U16F.fits(x)
    ensures forall x: U32 :: U32F.fits(x)
    ensures forall x: U64 :: U64F.fits(x)
    ensures forall x: I64 :: I64F.fits(x)
  {
    Widths();
    forall x: Byte
      ensures ByteF.fits(x)
    {
      assert Unsigned(1).fits(x) && AsByte(x) == x;
    }
    forall x: U16
      ensures U16F.fits(x)
    {
      assert Unsigned(2).fits(x) && AsU16(x) == x;
    }
    forall x: U32
      ensures U32F.fits(x)
    {
      assert Unsigned(4).fits(x) && AsU32(x) == x;
    }
    forall x: U64
      ensures U64F.fits(x)
    {
      assert Unsigned(8).fits(x) && AsU64(x) == x;
    }
    forall x: I64
      ensures I64F.fits(x)
    {
      assert U64F.fits(UnsignedOf(x)) && SignedOf(UnsignedOf(x)) == x;
    }
  }

  lemma PointFits(ok: Bytes32 -> bool, x: Bytes32)
    ensures PointF(ok).fits(x) <==> ok(x)
  {
    Array32Exact();
  }

  lemma MemberFits(c: Codec, m: RingMember)
    ensures RingMemberF(c).fits(m) <==> c.keyOk(m.key) && c.commitmentOk(m.commitment)
  {
    PointFits(c.keyOk, m.key);
    PointFits(c.commitmentOk, m.commitment);
    PairFits(PointF(c.keyOk), PointF(c.commitmentOk), m.key, m.commitment);
    MappedFits(Pair(PointF(c.keyOk), PointF(c.commitmentOk)), BuildMember, MemberParts, m);
  }

  lemma InputFits(c: Codec, x: Input)
    ensures InputF(c).fits(x) <==> InputWellFormed(c, x)
  {
    forall m: RingMember
      ensures RingMemberF(c).fits(m) <==> c.keyOk(m.key) && c.commitmentOk(m.commitment)
    {
      MemberFits(c, m);
    }
    CountedFits(MAX_RING_SIZE, RingMemberF(c), x.ring);
    PointFits(c.imageOk, x.keyImage);
    PointFits(c.commitmentOk, x.pseudoOut);
    var signature := Blob(32 * (|x.ring| + 2), c.clsagOk);
    PairFits(PointF(c.commitmentOk), signature, x.pseudoOut, x.clsag);
    PairFits(PointF(c.imageOk), Pair(PointF(c.commitmentOk), signature), x.keyImage, (x.pseudoOut, x.clsag));
    var rest := (ring: seq<RingMember>) => InputRestF(c, ring);
    ThenFits(RingF(c), rest, x.ring, InputParts(x).1);
    MappedFits(Then(RingF(c), rest), BuildInput, InputParts, x);
  }

  lemma OutputFits(c: Codec, x: Output)
    ensures OutputF(c).fits(x) <==> OutputWellFormed(c, x)
  {
    NumbersFit();
    PointFits(c.keyOk, x.oneTimeKey);
    PointFits(c.commitmentOk, x.commitment);
    var f := Pair(PointF(c.commitmentOk), U64F);
    PairFits(PointF(c.commitmentOk), U64F, x.commitment, x.encryptedAmount);
    PairFits(PointF(c.keyOk), f, x.oneTimeKey, (x.commitment, x.encryptedAmount));
    MappedFits(Pair(PointF(c.keyOk), f), BuildOutput, OutputParts, x);
  }

  lemma FourFit<A, B, C, D>(a: Format<A>, b: Format<B>, c: Format<C>, d: Format<D>, x: (A, (B, (C, D))))
    ensures Pair(a, Pair(b, Pair(c, d))).fits(x) <==>
              a.fits(x.0) && b.fits(x.1.0) && c.fits(x.1.1.0) && d.fits(x.1.1.1)
  {
    PairFits(c, d, x.1.1.0, x.1.1.1);
    PairFits(b, Pair(c, d), x.1.0, x.1.1);
    PairFits(a, Pair(b, Pair(c, d)), x.0, x.1);
  }

  lemma SevenFit<A, B, C, D, E, F, G>(
    a: Format<A>, b: Format<B>, c: Format<C>, d: Format<D>, e: Format<E>, f: Format<F>, g: Format<G>,
    x: (A, (B, (C, (D, (E, (F, G)))))))
    ensures Pair(a, Pair(b, Pair(c, Pair(d, Pair(e, Pair(f, g)))))).fits(x) <==>
              && a.fits(x.0) && b.fits(x.1.0) && c.fits(x.1.1.0) && d.fits(x.1.1.1.0)
              && e.fits(x.1.1.1.1.0) && f.fits(x.1.1.1.1.1.0) && g.fits(x.1.1.1.1.1.1)
  {
    FourFit(d, e, f, g, x.1.1.1);
    FourFit(a, b, c, Pair(d, Pair(e, Pair(f, g))), x);
  }

  lemma EightFit<A, B, C, D, E, F, G, H>(
    a: Format<A>, b: Format<B>, c: Format<C>, d: Format<D>, e: Format<E>, f: Format<F>, g: Format<G>, h: Format<H>,
    x: (A, (B, (C, (D, (E, (F, (G, H))))))))
    ensures Pair(a, Pair(b, Pair(c, Pair(d, Pair(e, Pair(f, Pair(g, h))))))).fits(x) <==>
              && a.fits(x.0) && b.fits(x.1.0) && c.fits(x.1.1.0) && d.fits(x.1.1.1.0)
              && e.fits(x.1.1.1.1.0) && f.fits(x.1.1.1.1.1.0) && g.fits(x.1.1.1.1.1.1.0) && h.fits(x.1.1.1.1.1.1.1)
  {
    var last := Pair(e, Pair(f, Pair(g, h)));
    FourFit(e, f, g, h, x.1.1.1.1);
    PairFits(d, last, x.1.1.1.0, x.1.1.1.1);
    FourFit(a, b, c, Pair(d, last), x);
  }

  lemma ArraysFit(a: Action)
    ensures Array32F.fits(a.cvNet) && Array32F.fits(a.nullifier) && Array32F.fits(a.rk)
    ensures Array32F.fits(a.cmx) && Array32F.fits(a.epk)
  {
    Array32Exact();
  }

  lemma ActionFieldsFit(a: Action)
    ensures ActionFields.fits(ActionPartsOf(a)) <==>
              |a.encCiphertext| == ENC_CIPHERTEXT && |a.outCiphertext| == OUT_CIPHERTEXT && |a.spendAuth| == 64
  {
    ArraysFit(a);
    EightFit(Array32F, Array32F, Array32F, Array32F, Array32F, Raw(ENC_CIPHERTEXT), Raw(OUT_CIPHERTEXT), Raw(64),
      ActionPartsOf(a));
  }

  lemma ActionFits(c: Codec, a: Action)
    ensures ActionF(c).fits(a) <==> ActionWellFormed(c, a)
  {
    ActionFieldsFit(a);
    assert BuildAction(ActionPartsOf(a)) == a;
    MappedFits(ActionFields, BuildAction, ActionPartsOf, a);
  }

  lemma BundleRestFits(c: Codec, n: U16, b: Bundle)
    ensures BundleRestF(c, n).fits(BundlePartsOf(b).1) <==>
              && |b.actions| == n && AllFit(ActionF(c), b.actions)
              && c.flagsOk(b.flags) && c.anchorOk(b.anchor) && |b.proof| == c.bundleProofBytes(n) && |b.binding| == 64
  {
    NumbersFit();
    PointFits(c.anchorOk, b.anchor);
    var f5 := Pair(Raw(c.bundleProofBytes(n)), Raw(64));
    var f4 := Pair(PointF(c.anchorOk), f5);
    var f3 := Pair(I64F, f4);
    var f2 := Pair(Checked(ByteF, c.flagsOk, BadTag), f3);
    var p := BundlePartsOf(b).1;
    PairFits(Raw(c.bundleProofBytes(n)), Raw(64), b.proof, b.binding);
    PairFits(PointF(c.anchorOk), f5, b.anchor, p.1.1.1.1);
    PairFits(I64F, f4, b.valueBalance, p.1.1.1);
    PairFits(Checked(ByteF, c.flagsOk, BadTag), f3, b.flags, p.1.1);
    PairFits(Times(ActionF(c), n), f2, b.actions, p.1);
  }

  lemma ActionCountFits(n: nat)
    ensures n <= MAX_ACTIONS ==> AsU16(n) == n
    ensures ActionCountF.fits(AsU16(n)) && AsU16(n) == n <==> 1 <= n <= MAX_ACTIONS
  {
    NumbersFit();
  }

  lemma BundlePartsFit(c: Codec, b: Bundle)
    ensures Mapped(Then(ActionCountF, (n: U16) => BundleRestF(c, n)), BuildBundle, BundlePartsOf).fits(b) <==>
              ActionCountF.fits(AsU16(|b.actions|)) && BundleRestF(c, AsU16(|b.actions|)).fits(BundlePartsOf(b).1)
  {
    var rest := (n: U16) => BundleRestF(c, n);
    ThenFits(ActionCountF, rest, AsU16(|b.actions|), BundlePartsOf(b).1);
    assert BuildBundle(BundlePartsOf(b)) == b;
    MappedFits(Then(ActionCountF, rest), BuildBundle, BundlePartsOf, b);
  }

  lemma ActionsFit(c: Codec, actions: seq<Action>)
    ensures AllFit(ActionF(c), actions) <==> forall i :: 0 <= i < |actions| ==> ActionWellFormed(c, actions[i])
  {
    AllFitEach(ActionF(c), actions);
    forall a: Action
      ensures ActionF(c).fits(a) <==> ActionWellFormed(c, a)
    {
      ActionFits(c, a);
    }
  }

  lemma CheckedFits<T>(f: Format<T>, ok: T -> bool, error: WireError, x: T)
    ensures Checked(f, ok, error).fits(x) <==> f.fits(x) && ok(x)
  {
  }

  lemma BundleFits(c: Codec, b: Bundle)
    ensures BundleF(c).fits(b) <==> BundleWellFormed(c, b)
  {
    BundlePartsFit(c, b);
    BundleRestFits(c, AsU16(|b.actions|), b);
    ActionCountFits(|b.actions|);
    ActionsFit(c, b.actions);
    var parts := Mapped(Then(ActionCountF, (n: U16) => BundleRestF(c, n)), BuildBundle, BundlePartsOf);
    CheckedFits(parts, c.bundleOk, BadProof, b);
  }

  lemma OptionFits<T>(f: Format<T>, x: Option<T>)
    ensures OptionF(f).fits(x) <==> (x.Some? ==> f.fits(x.value))
  {
    NumbersFit();
  }

  lemma SizedFits(max: nat, b: seq<Byte>)
    ensures Prefixed(4, max).fits(b) <==> |b| <= max && |b| < TWO_32
  {
    Widths();
  }

  lemma WithinFits<T>(outer: Format<seq<Byte>>, inner: Format<T>, error: WireError, x: T)
    ensures Within(outer, inner, error).fits(x) <==> inner.fits(x) && outer.fits(inner.write(x))
  {
  }

  lemma EmbeddedFits(c: Codec, b: Option<Bundle>)
    ensures OptionalBundleF(c).fits(b) <==> EmbeddedWellFormed(c, b)
  {
    var sized := Prefixed(4, MaxBundleBytes(c));
    var inner := Within(sized, BundleF(c), BadProof);
    OptionFits(inner, b);
    if b.Some? {
      BundleFits(c, b.value);
      WithinFits(sized, BundleF(c), BadProof, b.value);
      SizedFits(MaxBundleBytes(c), BundleBytes(b.value));
      if BundleWellFormed(c, b.value) {
        BundleWritten(c, b.value);
      }
    }
  }

  lemma {:induction false} ActionBytesAdd(c: Codec, actions: seq<Action>)
    requires forall i :: 0 <= i < |actions| ==> ActionWellFormed(c, actions[i])
    ensures |Concat(ActionBytes, actions)| == |actions| * ACTION_BYTES
  {
    if actions != [] {
      ActionBytesAdd(c, actions[1..]);
      assert ActionWellFormed(c, actions[0]);
    }
  }

  /** The cap refuses no bundle, as long as a proof over fewer actions is no longer. */
  lemma EveryBundleFitsTheCap(c: Codec, b: Bundle)
    requires BundleWellFormed(c, b)
    requires c.bundleProofBytes(|b.actions|) <= c.bundleProofBytes(MAX_ACTIONS)
    ensures |BundleBytes(b)| <= MaxBundleBytes(c)
  {
    ActionBytesAdd(c, b.actions);
  }

  lemma TxVectorsFit(c: Codec, tx: Transaction)
    ensures Counted(4, MAX_COMMITMENTS, PointF(c.keyOk)).fits(tx.additionalTxPublic) <==>
              && |tx.additionalTxPublic| <= MAX_COMMITMENTS
              && forall i :: 0 <= i < |tx.additionalTxPublic| ==> c.keyOk(tx.additionalTxPublic[i])
    ensures Counted(4, MAX_INPUTS, InputF(c)).fits(tx.inputs) <==>
              && |tx.inputs| <= MAX_INPUTS
              && forall i :: 0 <= i < |tx.inputs| ==> InputWellFormed(c, tx.inputs[i])
    ensures Counted(4, MAX_COMMITMENTS, OutputF(c)).fits(tx.outputs) <==>
              && |tx.outputs| <= MAX_COMMITMENTS
              && forall i :: 0 <= i < |tx.outputs| ==> OutputWellFormed(c, tx.outputs[i])
  {
    forall k: Bytes32
      ensures PointF(c.keyOk).fits(k) <==> c.keyOk(k)
    {
      PointFits(c.keyOk, k);
    }
    CountedFits(MAX_COMMITMENTS, PointF(c.keyOk), tx.additionalTxPublic);
    forall x: Input
      ensures InputF(c).fits(x) <==> InputWellFormed(c, x)
    {
      InputFits(c, x);
    }
    CountedFits(MAX_INPUTS, InputF(c), tx.inputs);
    forall x: Output
      ensures OutputF(c).fits(x) <==> OutputWellFormed(c, x)
    {
      OutputFits(c, x);
    }
    CountedFits(MAX_COMMITMENTS, OutputF(c), tx.outputs);
  }

  lemma TxHeadFits(c: Codec, tx: Transaction)
    ensures TxHeadF(c).fits(TxParts(tx).0) <==> TxHeadWellFormed(c, tx)
  {
    NumbersFit();
    PointFits(c.keyOk, tx.txPublic);
    var vectors := Pair(Counted(4, MAX_INPUTS, InputF(c)), Counted(4, MAX_COMMITMENTS, OutputF(c)));
    var p := TxParts(tx).0;
    FourFit(Counted(4, MAX_COMMITMENTS, PointF(c.keyOk)), U64F, Counted(4, MAX_INPUTS, InputF(c)),
      Counted(4, MAX_COMMITMENTS, OutputF(c)), p.1.1);
    var most := Pair(Counted(4, MAX_COMMITMENTS, PointF(c.keyOk)), Pair(U64F, vectors));
    PairFits(PointF(c.keyOk), most, tx.txPublic, p.1.1);
    PairFits(ByteF, Pair(PointF(c.keyOk), most), tx.version, p.1);
    TxVectorsFit(c, tx);
  }

  lemma VersionedFits(f: Format<(I64, Option<Bundle>)>, version: Byte, x: (I64, Option<Bundle>))
    ensures Versioned(f, version).fits(x) <==>
              || (version == TX_VERSION && x == (0, None))
              || (version == TX_VERSION_SHIELDED && f.fits(x))
  {
  }

  lemma ProofFits(c: Codec, outputs: seq<Output>, proof: Option<seq<Byte>>)
    ensures ProofF(c, outputs).fits(proof) <==> ProofWellFormed(c, outputs, proof)
  {
  }

  lemma TxTailFits(c: Codec, tx: Transaction)
    ensures TxTailF(c, TxParts(tx).0).fits(TxParts(tx).1) <==>
              ProofWellFormed(c, tx.outputs, tx.rangeProof) && CrossingWellFormed(c, tx)
  {
    NumbersFit();
    var f := Pair(I64F, OptionalBundleF(c));
    var x := (tx.cross, tx.shielded);
    PairFits(I64F, OptionalBundleF(c), tx.cross, tx.shielded);
    EmbeddedFits(c, tx.shielded);
    VersionedFits(f, tx.version, x);
    ProofFits(c, tx.outputs, tx.rangeProof);
    PairFits(ProofF(c, tx.outputs), Versioned(f, tx.version), tx.rangeProof, x);
  }

  lemma TxPartsFit(c: Codec, tx: Transaction)
    ensures TransactionF(c).fits(tx) <==>
              TxHeadF(c).fits(TxParts(tx).0) && TxTailF(c, TxParts(tx).0).fits(TxParts(tx).1)
  {
    var tail := (head: TxHead) => TxTailF(c, head);
    ThenFits(TxHeadF(c), tail, TxParts(tx).0, TxParts(tx).1);
    assert BuildTx(TxParts(tx)) == tx;
    MappedFits(Then(TxHeadF(c), tail), BuildTx, TxParts, tx);
  }

  /** The reader and writer are for exactly the well-formed transactions. */
  lemma {:induction false} TransactionFits(c: Codec, tx: Transaction)
    ensures TransactionF(c).fits(tx) <==> TxWellFormed(c, tx)
  {
    TxPartsFit(c, tx);
    TxHeadFits(c, tx);
    TxTailFits(c, tx);
  }

  lemma CoinbaseOutputFits(c: Codec, x: CoinbaseOutput)
    ensures CoinbaseOutputF(c).fits(x) <==> c.keyOk(x.oneTimeKey) && c.commitmentOk(x.commitment)
  {
    NumbersFit();
    PointFits(c.keyOk, x.oneTimeKey);
    PointFits(c.commitmentOk, x.commitment);
    var f := Pair(U64F, PointF(c.commitmentOk));
    PairFits(U64F, PointF(c.commitmentOk), x.amount, x.commitment);
    PairFits(PointF(c.keyOk), f, x.oneTimeKey, (x.amount, x.commitment));
    MappedFits(Pair(PointF(c.keyOk), f), BuildCoinbaseOutput, CoinbaseOutputParts, x);
  }

  lemma CoinbaseHeadFits(c: Codec, x: Coinbase)
    ensures CoinbaseHeadF(c).fits(CoinbaseParts(x).0) <==>
              && c.keyOk(x.txPublic) && |x.outputs| <= MAX_COMMITMENTS
              && forall i :: 0 <= i < |x.outputs| ==>
                   c.keyOk(x.outputs[i].oneTimeKey) && c.commitmentOk(x.outputs[i].commitment)
  {
    NumbersFit();
    PointFits(c.keyOk, x.txPublic);
    forall o: CoinbaseOutput
      ensures CoinbaseOutputF(c).fits(o) <==> c.keyOk(o.oneTimeKey) && c.commitmentOk(o.commitment)
    {
      CoinbaseOutputFits(c, o);
    }
    var outputs := Counted(4, MAX_COMMITMENTS, CoinbaseOutputF(c));
    CountedFits(MAX_COMMITMENTS, CoinbaseOutputF(c), x.outputs);
    PairFits(PointF(c.keyOk), outputs, x.txPublic, x.outputs);
    PairFits(U64F, Pair(PointF(c.keyOk), outputs), x.height, (x.txPublic, x.outputs));
  }

  lemma CoinbaseTailFits(c: Codec, x: Coinbase)
    ensures CoinbaseTailF(c, CoinbaseParts(x).0).fits(x.shielded) <==>
              (x.outputs != [] ==> x.shielded == None) && EmbeddedWellFormed(c, x.shielded)
  {
    EmbeddedFits(c, x.shielded);
  }

  lemma CoinbaseFits(c: Codec, x: Coinbase)
    ensures CoinbaseF(c).fits(x) <==> CoinbaseWellFormed(c, x)
  {
    CoinbaseHeadFits(c, x);
    CoinbaseTailFits(c, x);
    var tail := (head: CoinbaseHead) => CoinbaseTailF(c, head);
    ThenFits(CoinbaseHeadF(c), tail, CoinbaseParts(x).0, x.shielded);
    assert BuildCoinbase(CoinbaseParts(x)) == x;
    MappedFits(Then(CoinbaseHeadF(c), tail), BuildCoinbase, CoinbaseParts, x);
  }

  lemma HeaderFits(h: BlockHeader)
    ensures HeaderF.fits(h)
  {
    NumbersFit();
    Array32Exact();
    var p := HeaderPartsOf(h);
    FourFit(ByteF, U64F, Array32F, U32F, p.1);
    PairFits(ByteF, Pair(ByteF, Pair(U64F, Pair(Array32F, U32F))), h.majorVersion, p.1);
    MappedFits(Pair(ByteF, Pair(ByteF, Pair(U64F, Pair(Array32F, U32F)))), BuildHeader, HeaderPartsOf, h);
  }

  lemma HashesFit(hashes: seq<Bytes32>)
    ensures Counted(4, MAX_TXS_PER_BLOCK, Array32F).fits(hashes) <==> |hashes| <= MAX_TXS_PER_BLOCK
  {
    Array32Exact();
    CountedFits(MAX_TXS_PER_BLOCK, Array32F, hashes);
  }

  lemma BlockFits(c: Codec, b: Block)
    ensures BlockF(c).fits(b) <==> BlockWellFormed(c, b)
  {
    HeaderFits(b.header);
    CoinbaseFits(c, b.coinbase);
    HashesFit(b.txHashes);
    var hashes := Counted(4, MAX_TXS_PER_BLOCK, Array32F);
    PairFits(CoinbaseF(c), hashes, b.coinbase, b.txHashes);
    PairFits(HeaderF, Pair(CoinbaseF(c), hashes), b.header, (b.coinbase, b.txHashes));
    MappedFits(Pair(HeaderF, Pair(CoinbaseF(c), hashes)), BuildBlock, BlockPartsOf, b);
  }

  // --- carrying these facts through larger formats --------------------------

  /** A format is for exactly the values that pass `ok`, and writes those as `bytes`. */
  ghost predicate Codes<T(!new)>(f: Format<T>, ok: T -> bool, bytes: T -> seq<Byte>) {
    forall x: T {:trigger f.fits(x)} {:trigger f.write(x)} ::
      (f.fits(x) <==> ok(x)) && (ok(x) ==> f.write(x) == bytes(x))
  }

  predicate BothOk<A, B>(ok: A -> bool, ok': B -> bool, p: (A, B)) {
    ok(p.0) && ok'(p.1)
  }

  function BothBytes<A, B>(bytes: A -> seq<Byte>, bytes': B -> seq<Byte>, p: (A, B)): seq<Byte> {
    bytes(p.0) + bytes'(p.1)
  }

  lemma MappedPairCodes<A(!new), B(!new), M(!new)>(
    f: Format<A>, ok: A -> bool, bytes: A -> seq<Byte>, g: Format<B>, ok': B -> bool, bytes': B -> seq<Byte>,
    build: ((A, B)) -> M, parts: M -> (A, B), okM: M -> bool, bytesM: M -> seq<Byte>)
    requires Codes(f, ok, bytes) && Codes(g, ok', bytes')
    requires forall m :: okM(m) <==> build(parts(m)) == m && BothOk(ok, ok', parts(m))
    requires forall m :: okM(m) ==> bytesM(m) == BothBytes(bytes, bytes', parts(m))
    ensures Codes(Mapped(Pair(f, g), build, parts), okM, bytesM)
  {
    forall m: M
      ensures Mapped(Pair(f, g), build, parts).fits(m) <==> okM(m)
      ensures okM(m) ==> Mapped(Pair(f, g), build, parts).write(m) == bytesM(m)
    {
      PairFits(f, g, parts(m).0, parts(m).1);
      PairWrites(f, g, parts(m).0, parts(m).1);
    }
  }

  lemma MappedCodes<A(!new), M(!new)>(
    f: Format<A>, ok: A -> bool, bytes: A -> seq<Byte>,
    build: A -> M, parts: M -> A, okM: M -> bool, bytesM: M -> seq<Byte>)
    requires Codes(f, ok, bytes)
    requires forall m :: okM(m) <==> build(parts(m)) == m && ok(parts(m))
    requires forall m :: okM(m) ==> bytesM(m) == bytes(parts(m))
    ensures Codes(Mapped(f, build, parts), okM, bytesM)
  {
  }

  lemma FourCodes<A(!new), B(!new), C(!new), D(!new)>(
    a: Format<A>, bytesA: A -> seq<Byte>, b: Format<B>, bytesB: B -> seq<Byte>,
    c: Format<C>, bytesC: C -> seq<Byte>, d: Format<D>, bytesD: D -> seq<Byte>)
    requires Codes(a, (x: A) => true, bytesA) && Codes(b, (x: B) => true, bytesB)
    requires Codes(c, (x: C) => true, bytesC) && Codes(d, (x: D) => true, bytesD)
    ensures Codes(Pair(a, Pair(b, Pair(c, d))), (x: (A, (B, (C, D)))) => true,
              (x: (A, (B, (C, D)))) => bytesA(x.0) + (bytesB(x.1.0) + (bytesC(x.1.1.0) + bytesD(x.1.1.1))))
  {
    forall x: (A, (B, (C, D)))
      ensures Pair(a, Pair(b, Pair(c, d))).fits(x)
      ensures Pair(a, Pair(b, Pair(c, d))).write(x) ==
                bytesA(x.0) + (bytesB(x.1.0) + (bytesC(x.1.1.0) + bytesD(x.1.1.1)))
    {
      FourFit(a, b, c, d, x);
      PairWrites(c, d, x.1.1.0, x.1.1.1);
      PairWrites(b, Pair(c, d), x.1.0, x.1.1);
      PairWrites(a, Pair(b, Pair(c, d)), x.0, x.1);
    }
  }

  /** Fixed-width fields carry every value. */
  lemma FieldCodes()
    ensures Codes(U16F, (x: U16) => true, (x: U16) => ToLe(2, x))
    ensures Codes(U32F, (x: U32) => true, (x: U32) => ToLe(4, x))
    ensures Codes(U64F, (x: U64) => true, (x: U64) => ToLe(8, x))
  {
    NumbersFit();
  }

  lemma WideFieldCodes()
    ensures Codes(U128F, (x: U128) => true, (x: U128) => ToLe(16, x))
    ensures Codes(Array32F, (x: Bytes32) => true, ArrayOf)
  {
    forall x: U128
      ensures U128F.fits(x)
    {
      Widths();
      assert Unsigned(16).fits(x) && AsU128(x) == x;
    }
    Array32Exact();
  }

  lemma CodesDecode<T(!new)>(f: Format<T>, ok: T -> bool, bytes: T -> seq<Byte>, x: T, buffer: seq<Byte>)
    requires Exact(f) && Codes(f, ok, bytes)
    ensures DecodeAll(f, buffer) == Ok(x) <==> ok(x) && buffer == bytes(x)
  {
    DecodesExactly(f, x, buffer);
    assert f.fits(x) <==> ok(x);
  }

  lemma CodesReadBack<T(!new)>(f: Format<T>, ok: T -> bool, bytes: T -> seq<Byte>, x: T, rest: seq<Byte>)
    requires Exact(f) && Codes(f, ok, bytes) && ok(x)
    ensures f.read(bytes(x) + rest) == Ok((x, rest))
  {
    assert f.fits(x) && f.write(x) == bytes(x);
    assert f.read(f.write(x) + rest) == Ok((x, rest));
  }

  predicate EachOk<T>(max: nat, ok: T -> bool, xs: seq<T>) {
    |xs| <= max && forall i :: 0 <= i < |xs| ==> ok(xs[i])
  }

  lemma CountedCodes<T(!new)>(max: nat, f: Format<T>, ok: T -> bool, bytes: T -> seq<Byte>)
    requires max < TWO_32 && Codes(f, ok, bytes)
    ensures Codes(Counted(4, max, f), (xs: seq<T>) => EachOk(max, ok, xs), (xs: seq<T>) => VecBytes(bytes, xs))
  {
    forall xs: seq<T>
      ensures Counted(4, max, f).fits(xs) <==> EachOk(max, ok, xs)
      ensures EachOk(max, ok, xs) ==> Counted(4, max, f).write(xs) == VecBytes(bytes, xs)
    {
      CountedFits(max, f, xs);
      if EachOk(max, ok, xs) {
        CountedWrites(4, max, f, bytes, xs);
      }
    }
  }

  lemma TransactionCodes(c: Codec)
    ensures Codes(TransactionF(c), (tx: Transaction) => TxWellFormed(c, tx), TxBytes)
  {
    forall tx: Transaction
      ensures TransactionF(c).fits(tx) <==> TxWellFormed(c, tx)
      ensures TxWellFormed(c, tx) ==> TransactionF(c).write(tx) == TxBytes(tx)
    {
      TransactionFits(c, tx);
      if TxWellFormed(c, tx) {
        TransactionWritten(c, tx);
      }
    }
  }

  lemma BlockCodes(c: Codec)
    ensures Codes(BlockF(c), (b: Block) => BlockWellFormed(c, b), BlockBytes)
  {
    forall b: Block
      ensures BlockF(c).fits(b) <==> BlockWellFormed(c, b)
      ensures BlockWellFormed(c, b) ==> BlockF(c).write(b) == BlockBytes(b)
    {
      BlockFits(c, b);
      if BlockWellFormed(c, b) {
        BlockWritten(c, b);
      }
    }
  }

  // --- the codec theorems --------------------------------------------------

  function DecodeTransaction(c: Codec, bytes: seq<Byte>): Result<Transaction, WireError> {
    DecodeAll(TransactionF(c), bytes)
  }

  function DecodeBlock(c: Codec, bytes: seq<Byte>): Result<Block, WireError> {
    DecodeAll(BlockF(c), bytes)
  }

  /**
   Bytes decode to a transaction exactly when it is well-formed and they are what
   `Transaction::to_bytes` writes for it, so a transaction has one encoding and its hash
   is the hash of whatever bytes it arrived in.
   */
  lemma TransactionsDecodeExactly(c: Codec, tx: Transaction, bytes: seq<Byte>)
    requires SelfDelimiting(c)
    ensures DecodeTransaction(c, bytes) == Ok(tx) <==> TxWellFormed(c, tx) && bytes == TxBytes(tx)
  {
    TransactionExact(c);
    TransactionCodes(c);
    CodesDecode(TransactionF(c), (t: Transaction) => TxWellFormed(c, t), TxBytes, tx, bytes);
  }

  /** Inside something larger, a transaction reads back and leaves what follows it untouched. */
  lemma TransactionsReadBack(c: Codec, tx: Transaction, rest: seq<Byte>)
    requires SelfDelimiting(c) && TxWellFormed(c, tx)
    ensures TransactionF(c).read(TxBytes(tx) + rest) == Ok((tx, rest))
  {
    TransactionExact(c);
    TransactionCodes(c);
    CodesReadBack(TransactionF(c), (t: Transaction) => TxWellFormed(c, t), TxBytes, tx, rest);
  }

  lemma BlocksDecodeExactly(c: Codec, b: Block, bytes: seq<Byte>)
    ensures DecodeBlock(c, bytes) == Ok(b) <==> BlockWellFormed(c, b) && bytes == BlockBytes(b)
  {
    BlockExact(c);
    BlockCodes(c);
    CodesDecode(BlockF(c), (t: Block) => BlockWellFormed(c, t), BlockBytes, b, bytes);
  }
}
