/**
 Building a transaction (`build_with_shielded`, noct/core/src/tx.rs) against verifying it:
 what the builder lets through on integer balance, the validator accepts on commitments.
 Keys, proofs and signatures come from an honest signer.
 */
module Builder {
  import opened Types
  import opened Data
  import opened Oracles
  import opened Ledgers

  /** An output being spent: its ring, its amount and its image. */
  datatype Spend = Spend(ring: seq<RingMember>, amount: U64, keyImage: Bytes32)

  /** Where money goes; `subaddress` destinations need their own transaction key. */
  datatype Payment = Payment(amount: U64, destination: Bytes32, subaddress: bool)

  datatype Signer = Signer(
    txPublic: Bytes32,
    makeOutput: (Payment, nat) -> Output,
    subaddressKey: Payment -> Bytes32,
    prove: seq<Bytes32> -> Option<seq<Byte>>,
    sign: (seq<Spend>, nat, Bytes32) -> Option<seq<Input>>)

  type Authorize = Option<Bytes32 -> Result<Bundle, TxError>>

  function SpendTotal(spends: seq<Spend>): nat {
    if spends == [] then 0 else spends[0].amount + SpendTotal(spends[1..])
  }

  function PaymentTotal(payments: seq<Payment>): nat {
    if payments == [] then 0 else payments[0].amount + PaymentTotal(payments[1..])
  }

  function Outputs(signer: Signer, payments: seq<Payment>): (outs: seq<Output>)
    ensures |outs| == |payments|
  {
    seq(|payments|, i requires 0 <= i < |payments| => signer.makeOutput(payments[i], i))
  }

  predicate AnySubaddress(payments: seq<Payment>) {
    payments != [] && (payments[0].subaddress || AnySubaddress(payments[1..]))
  }

  lemma {:induction false} AnySubaddressAt(payments: seq<Payment>)
    ensures AnySubaddress(payments) <==> exists i :: 0 <= i < |payments| && payments[i].subaddress
  {
    if payments != [] {
      AnySubaddressAt(payments[1..]);
      assert forall i :: 1 <= i < |payments| ==> payments[i] == payments[1..][i - 1];
    }
  }

  function KeyFor(signer: Signer, p: Payment): Bytes32 {
    if p.subaddress then signer.subaddressKey(p) else signer.txPublic
  }

  /** A key per output as soon as one goes to a subaddress, none otherwise. */
  function AdditionalKeys(signer: Signer, payments: seq<Payment>): (keys: seq<Bytes32>)
    ensures keys == [] || |keys| == |payments|
  {
    if AnySubaddress(payments) then
      seq(|payments|, i requires 0 <= i < |payments| => KeyFor(signer, payments[i]))
    else []
  }

  /** Inputs before they are signed: what the message covers. */
  function Unsigned(spends: seq<Spend>): (inputs: seq<Input>)
    ensures |inputs| == |spends|
  {
    seq(|spends|, i requires 0 <= i < |spends| => Input(spends[i].ring, spends[i].keyImage, 0, []))
  }

  function Commitments(outputs: seq<Output>): (cs: seq<Bytes32>)
    ensures |cs| == |outputs|
  {
    seq(|outputs|, i requires 0 <= i < |outputs| => outputs[i].commitment)
  }

  /** Refusals that need nothing but the arguments. */
  function EarlyRefusal(spends: seq<Spend>, payments: seq<Payment>, fee: U64, cross: I64, authorize: Authorize)
    : Option<TxError>
  {
    if authorize.None? && spends == [] then Some(NoInputs)
    else if authorize.None? && payments == [] then Some(NoOutputs)
    else if cross != 0 && authorize.None? then Some(CrossWithoutBundle)
    else if SpendTotal(spends) != PaymentTotal(payments) + fee + cross then Some(Unbalanced)
    else None
  }

  function Draft(signer: Signer, spends: seq<Spend>, payments: seq<Payment>, fee: U64, cross: I64,
    authorize: Authorize, proof: Option<seq<Byte>>): Transaction
  {
    Transaction(
      if cross != 0 || authorize.Some? then TX_VERSION_SHIELDED else TX_VERSION,
      signer.txPublic, AdditionalKeys(signer, payments), fee, Unsigned(spends), Outputs(signer, payments), proof,
      cross, None)
  }

  /** The bundle, authorised over the ring side and held to the crossing the ring side states. */
  function Authorized(o: Crypto, draft: Transaction, authorize: Authorize): Result<Option<Bundle>, TxError> {
    match authorize
    case None => Ok(None)
    case Some(f) =>
      match f(o.bundleSighash(draft))
      case Err(e) => Err(e)
      case Ok(bundle) =>
        if bundle.Cross().None? then Err(Shielded(UnrepresentableValue))
        else if bundle.Cross().value != draft.cross then Err(CrossMismatch(draft.cross, bundle.Cross().value))
        else Ok(Some(bundle))
  }

  /** No range proof and no signatures where there is nothing to prove or sign. */
  function Proved(signer: Signer, outputs: seq<Output>): Result<Option<seq<Byte>>, TxError> {
    if outputs == [] then Ok(None)
    else
      match signer.prove(Commitments(outputs))
      case None => Err(BadRangeProof)
      case Some(proof) => Ok(Some(proof))
  }

  function Signed(o: Crypto, signer: Signer, spends: seq<Spend>, tx: Transaction): Result<Transaction, TxError> {
    if spends == [] then Ok(tx)
    else
      match signer.sign(spends, SumMasks(o, Commitments(tx.outputs)), o.message(tx))
      case None => Err(BadRingSignature)
      case Some(inputs) => Ok(tx.(inputs := inputs))
  }

  function Built(o: Crypto, signer: Signer, spends: seq<Spend>, payments: seq<Payment>, fee: U64, cross: I64,
    authorize: Authorize): Result<Transaction, TxError>
  {
    var refusal := EarlyRefusal(spends, payments, fee, cross, authorize);
    if refusal.Some? then Err(refusal.value)
    else
      match Proved(signer, Outputs(signer, payments))
      case Err(e) => Err(e)
      case Ok(proof) =>
        var draft := Draft(signer, spends, payments, fee, cross, authorize, proof);
        match Authorized(o, draft, authorize)
        case Err(e) => Err(e)
        case Ok(bundle) => Signed(o, signer, spends, draft.(shielded := bundle))
  }

  // --- the honest signer ---------------------------------------------------

  predicate SignsFor(o: Crypto, spends: seq<Spend>, inputs: seq<Input>) {
    && |inputs| == |spends|
    && forall i :: 0 <= i < |spends| ==>
         && inputs[i].ring == spends[i].ring && inputs[i].keyImage == spends[i].keyImage
         && o.opening(inputs[i].pseudoOut).amount == spends[i].amount
  }

  function PseudoOuts(inputs: seq<Input>): (cs: seq<Bytes32>)
    ensures |cs| == |inputs|
  {
    seq(|inputs|, i requires 0 <= i < |inputs| => inputs[i].pseudoOut)
  }

  /**
   The libraries do their part: commitments hold the amounts paid, proofs and signatures
   verify, pseudo-outs carry the amounts spent and masks that add up to the outputs'. The
   message covers everything but the signatures, and what the bundle is authorised over
   leaves out the bundle too.
   */
  ghost predicate Honest(o: Crypto, signer: Signer) {
    && (forall p, i :: o.opening(signer.makeOutput(p, i).commitment).amount == p.amount)
    && (forall cs :: signer.prove(cs).Some? ==> o.rangeProofOk(signer.prove(cs).value, cs))
    && (forall spends, masks: nat, m :: signer.sign(spends, masks, m).Some? ==>
          var inputs := signer.sign(spends, masks, m).value;
          && SignsFor(o, spends, inputs) && SignaturesOk(o, inputs, m)
          && SumMasks(o, PseudoOuts(inputs)) % GROUP_ORDER == masks % GROUP_ORDER)
    && (forall tx: Transaction, spends, inputs ::
          SignsFor(o, spends, inputs) && tx.inputs == Unsigned(spends) ==>
            o.message(tx.(inputs := inputs)) == o.message(tx))
    && (forall tx: Transaction, spends, inputs ::
          SignsFor(o, spends, inputs) && tx.inputs == Unsigned(spends) ==>
            o.bundleSighash(tx.(inputs := inputs)) == o.bundleSighash(tx))
    && (forall tx: Transaction, bundle :: o.bundleSighash(tx.(shielded := bundle)) == o.bundleSighash(tx))
  }

  lemma {:induction false} SpendsSum(o: Crypto, spends: seq<Spend>, inputs: seq<Input>, cs: seq<Bytes32>)
    requires SignsFor(o, spends, inputs) && |cs| == |inputs|
    requires forall i :: 0 <= i < |inputs| ==> cs[i] == inputs[i].pseudoOut
    ensures SumAmounts(o, cs) == SpendTotal(spends)
  {
    if spends != [] {
      SpendsSum(o, spends[1..], inputs[1..], cs[1..]);
    }
  }

  lemma {:induction false} PaymentsSum(o: Crypto, payments: seq<Payment>, cs: seq<Bytes32>)
    requires |cs| == |payments|
    requires forall i :: 0 <= i < |payments| ==> o.opening(cs[i]).amount == payments[i].amount
    ensures SumAmounts(o, cs) == PaymentTotal(payments)
  {
    if payments != [] {
      PaymentsSum(o, payments[1..], cs[1..]);
    }
  }

  /** Integer balance becomes commitment balance, whichever way the crossing goes. */
  lemma BalanceCarriesOver(o: Crypto, pseudoOuts: seq<Bytes32>, outputs: seq<Bytes32>, fee: U64, cross: I64)
    requires cross != I64_MIN
    requires SumMasks(o, pseudoOuts) % GROUP_ORDER == SumMasks(o, outputs) % GROUP_ORDER
    requires SumAmounts(o, pseudoOuts) == SumAmounts(o, outputs) + fee + cross
    ensures Balances(o, pseudoOuts, outputs, fee, cross) == Some(true)
  {
    var terms := CrossTerms(cross).value;
    assert SumAmounts(o, pseudoOuts) + terms.0 == SumAmounts(o, outputs) + fee + terms.1;
  }

  // --- what is built verifies ----------------------------------------------

  /** The parts of a finished transaction. */
  ghost predicate BuiltFrom(
    o: Crypto, signer: Signer, spends: seq<Spend>, payments: seq<Payment>, fee: U64, cross: I64,
    authorize: Authorize, tx: Transaction)
  {
    && EarlyRefusal(spends, payments, fee, cross, authorize).None?
    && tx.version == (if cross != 0 || authorize.Some? then TX_VERSION_SHIELDED else TX_VERSION)
    && tx.additionalTxPublic == AdditionalKeys(signer, payments) && tx.fee == fee && tx.cross == cross
    && tx.outputs == Outputs(signer, payments)
    && Proved(signer, tx.outputs) == Ok(tx.rangeProof)
    && (tx.shielded.Some? <==> authorize.Some?)
    && (tx.shielded.Some? ==> tx.shielded.value.Cross() == Some(cross))
  }

  lemma BuiltParts(
    o: Crypto, signer: Signer, spends: seq<Spend>, payments: seq<Payment>, fee: U64, cross: I64,
    authorize: Authorize, tx: Transaction)
    requires Built(o, signer, spends, payments, fee, cross, authorize) == Ok(tx)
    ensures BuiltFrom(o, signer, spends, payments, fee, cross, authorize, tx)
    ensures spends == [] ==> tx.inputs == []
    ensures spends != [] ==>
              var unsigned := tx.(inputs := Unsigned(spends));
              signer.sign(spends, SumMasks(o, Commitments(tx.outputs)), o.message(unsigned)) == Some(tx.inputs)
  {
    var proof := Proved(signer, Outputs(signer, payments)).value;
    var draft := Draft(signer, spends, payments, fee, cross, authorize, proof);
    var whole := draft.(shielded := Authorized(o, draft, authorize).value);
    assert tx == Signed(o, signer, spends, whole).value;
    if spends != [] {
      assert tx.(inputs := Unsigned(spends)) == whole;
    } else {
      assert Unsigned(spends) == [];
    }
  }

  lemma BuiltShape(
    o: Crypto, signer: Signer, spends: seq<Spend>, payments: seq<Payment>, fee: U64, cross: I64,
    authorize: Authorize, tx: Transaction)
    requires BuiltFrom(o, signer, spends, payments, fee, cross, authorize, tx) && |tx.inputs| == |spends|
    ensures ShapeVerdict(tx).None? <==> Distinct(tx.KeyImages())
    ensures cross != I64_MIN
  {
  }

  lemma BuiltRange(o: Crypto, signer: Signer, payments: seq<Payment>, tx: Transaction)
    requires Honest(o, signer)
    requires tx.outputs == Outputs(signer, payments) && Proved(signer, tx.outputs) == Ok(tx.rangeProof)
    ensures RangeOk(o, tx)
    ensures SumAmounts(o, tx.OutputCommitments()) == PaymentTotal(payments)
  {
    assert tx.OutputCommitments() == Commitments(tx.outputs);
    PaymentsSum(o, payments, tx.OutputCommitments());
  }

  lemma BuiltInputs(o: Crypto, signer: Signer, spends: seq<Spend>, tx: Transaction)
    requires Honest(o, signer)
    requires spends == [] ==> tx.inputs == []
    requires spends != [] ==>
               var unsigned := tx.(inputs := Unsigned(spends));
               signer.sign(spends, SumMasks(o, Commitments(tx.outputs)), o.message(unsigned)) == Some(tx.inputs)
    ensures |tx.inputs| == |spends| && SignaturesOk(o, tx.inputs, o.message(tx))
    ensures SumAmounts(o, tx.PseudoOuts()) == SpendTotal(spends)
    ensures spends != [] ==>
              SumMasks(o, tx.PseudoOuts()) % GROUP_ORDER == SumMasks(o, tx.OutputCommitments()) % GROUP_ORDER
    ensures spends == [] ==> SumMasks(o, tx.PseudoOuts()) == 0
  {
    if spends != [] {
      var unsigned := tx.(inputs := Unsigned(spends));
      assert SignsFor(o, spends, tx.inputs);
      assert unsigned.(inputs := tx.inputs) == tx;
      SpendsSum(o, spends, tx.inputs, tx.PseudoOuts());
      assert tx.PseudoOuts() == PseudoOuts(tx.inputs) && tx.OutputCommitments() == Commitments(tx.outputs);
    }
  }

  /** Amounts balance whatever happens; masks cancel exactly when a ring signature made them. */
  lemma BuiltBalances(
    o: Crypto, spends: seq<Spend>, payments: seq<Payment>, fee: U64, cross: I64, ins: seq<Bytes32>, outs: seq<Bytes32>)
    requires cross != I64_MIN && SpendTotal(spends) == PaymentTotal(payments) + fee + cross
    requires SumAmounts(o, ins) == SpendTotal(spends) && SumAmounts(o, outs) == PaymentTotal(payments)
    ensures Balances(o, ins, outs, fee, cross).Some?
    ensures Balances(o, ins, outs, fee, cross).value <==>
              SumMasks(o, ins) % GROUP_ORDER == SumMasks(o, outs) % GROUP_ORDER
  {
    if SumMasks(o, ins) % GROUP_ORDER == SumMasks(o, outs) % GROUP_ORDER {
      BalanceCarriesOver(o, ins, outs, fee, cross);
    }
  }

  /** The validator's verdict, check by check. */
  lemma VerdictIff(o: Crypto, tx: Transaction)
    ensures BatchableVerdict(o, tx).Ok? <==>
              && ShapeVerdict(tx).None? && RangeOk(o, tx) && SignaturesOk(o, tx.inputs, o.message(tx))
              && Balances(o, tx.PseudoOuts(), tx.OutputCommitments(), tx.fee, tx.cross) == Some(true)
  {
  }

  /** The images the transaction will carry, known before anything is built. */
  function Images(spends: seq<Spend>): (images: seq<Bytes32>)
    ensures |images| == |spends|
  {
    seq(|spends|, i requires 0 <= i < |spends| => spends[i].keyImage)
  }

  lemma BuiltImages(o: Crypto, signer: Signer, spends: seq<Spend>, tx: Transaction)
    requires Honest(o, signer)
    requires spends == [] ==> tx.inputs == []
    requires spends != [] ==>
               var unsigned := tx.(inputs := Unsigned(spends));
               signer.sign(spends, SumMasks(o, Commitments(tx.outputs)), o.message(unsigned)) == Some(tx.inputs)
    ensures tx.KeyImages() == Images(spends)
  {
    if spends != [] {
      assert SignsFor(o, spends, tx.inputs);
    }
  }

  /** What the bundle is asked to authorise: the ring side, before anything is signed. */
  function AskedSighash(o: Crypto, signer: Signer, spends: seq<Spend>, payments: seq<Payment>, fee: U64, cross: I64,
    authorize: Authorize): Bytes32
    requires Proved(signer, Outputs(signer, payments)).Ok?
  {
    o.bundleSighash(Draft(signer, spends, payments, fee, cross, authorize,
                          Proved(signer, Outputs(signer, payments)).value))
  }

  /** The bundle in the transaction is the answer to what was asked, and still stands for it. */
  lemma {:induction false} BuiltBundle(
    o: Crypto, signer: Signer, spends: seq<Spend>, payments: seq<Payment>, fee: U64, cross: I64,
    authorize: Authorize, tx: Transaction)
    requires Honest(o, signer)
    requires Built(o, signer, spends, payments, fee, cross, authorize) == Ok(tx)
    ensures var asked := AskedSighash(o, signer, spends, payments, fee, cross, authorize);
            && o.bundleSighash(tx) == asked
            && (authorize.Some? ==> tx.shielded.Some? && authorize.value(asked) == Ok(tx.shielded.value))
            && (authorize.None? ==> tx.shielded.None?)
  {
    var proof := Proved(signer, Outputs(signer, payments)).value;
    var draft := Draft(signer, spends, payments, fee, cross, authorize, proof);
    var whole := draft.(shielded := Authorized(o, draft, authorize).value);
    assert o.bundleSighash(whole) == o.bundleSighash(draft);
    if spends != [] {
      var inputs := signer.sign(spends, SumMasks(o, Commitments(whole.outputs)), o.message(whole)).value;
      assert SignsFor(o, spends, inputs) && tx == whole.(inputs := inputs);
    }
  }

  /** What the builder does not refuse: a bundle whose proof fails for the sighash it was handed. */
  predicate BundleStands(o: Crypto, signer: Signer, spends: seq<Spend>, payments: seq<Payment>, fee: U64, cross: I64,
    authorize: Authorize)
    requires Proved(signer, Outputs(signer, payments)).Ok?
  {
    authorize.Some? ==>
      var asked := AskedSighash(o, signer, spends, payments, fee, cross, authorize);
      authorize.value(asked).Ok? && o.bundleOk(authorize.value(asked).value, asked)
  }

  /**
   A transaction the builder returns passes the validator's checks short of the bundle's
   proof if and only if no output is spent twice and the ring side can cancel the output
   masks: there is a ring input, or the masks of the outputs to be made already sum to
   zero. The builder refuses neither, though its description lets the input half be empty
   whenever a bundle is present.
   */
  lemma BuiltIsBatchableIff(
    o: Crypto, signer: Signer, spends: seq<Spend>, payments: seq<Payment>, fee: U64, cross: I64,
    authorize: Authorize, tx: Transaction)
    requires Honest(o, signer)
    requires Built(o, signer, spends, payments, fee, cross, authorize) == Ok(tx)
    ensures BatchableVerdict(o, tx).Ok? <==>
              && Distinct(Images(spends))
              && (spends != [] || SumMasks(o, Commitments(Outputs(signer, payments))) % GROUP_ORDER == 0)
  {
    BuiltParts(o, signer, spends, payments, fee, cross, authorize, tx);
    BuiltRange(o, signer, payments, tx);
    BuiltInputs(o, signer, spends, tx);
    BuiltImages(o, signer, spends, tx);
    BuiltShape(o, signer, spends, payments, fee, cross, authorize, tx);
    BuiltBalances(o, spends, payments, fee, cross, tx.PseudoOuts(), tx.OutputCommitments());
    assert tx.OutputCommitments() == Commitments(tx.outputs);
    VerdictIff(o, tx);
  }

  /** The whole of `verify`: besides, the bundle must stand for what it was asked to authorise. */
  lemma {:induction false} BuiltVerifiesIff(
    o: Crypto, signer: Signer, spends: seq<Spend>, payments: seq<Payment>, fee: U64, cross: I64,
    authorize: Authorize, tx: Transaction)
    requires Honest(o, signer)
    requires Built(o, signer, spends, payments, fee, cross, authorize) == Ok(tx)
    ensures Proved(signer, Outputs(signer, payments)).Ok?
    ensures VerifyVerdict(o, tx).None? <==>
              && Distinct(Images(spends))
              && (spends != [] || SumMasks(o, Commitments(Outputs(signer, payments))) % GROUP_ORDER == 0)
              && BundleStands(o, signer, spends, payments, fee, cross, authorize)
  {
    BuiltIsBatchableIff(o, signer, spends, payments, fee, cross, authorize, tx);
    BuiltBundle(o, signer, spends, payments, fee, cross, authorize, tx);
  }

  /** What the arguments ask for is what the transaction carries: who is paid, with which keys, and what is spent. */
  ghost predicate Carries(
    signer: Signer, spends: seq<Spend>, payments: seq<Payment>, fee: U64, cross: I64, tx: Transaction)
  {
    && tx.version == (if tx.shielded.Some? then 2 else 1)
    && tx.txPublic == signer.txPublic && tx.fee == fee && tx.cross == cross
    && |tx.outputs| == |payments|
    && (forall i :: 0 <= i < |payments| ==> tx.outputs[i] == signer.makeOutput(payments[i], i))
    && |tx.inputs| == |spends|
    && (forall i :: 0 <= i < |spends| ==>
          tx.inputs[i].ring == spends[i].ring && tx.inputs[i].keyImage == spends[i].keyImage)
    && (if exists i :: 0 <= i < |payments| && payments[i].subaddress then
          && |tx.additionalTxPublic| == |payments|
          && forall i :: 0 <= i < |payments| ==>
               tx.additionalTxPublic[i] ==
               if payments[i].subaddress then signer.subaddressKey(payments[i]) else signer.txPublic
        else tx.additionalTxPublic == [])
  }

  lemma {:induction false} BuiltCarries(
    o: Crypto, signer: Signer, spends: seq<Spend>, payments: seq<Payment>, fee: U64, cross: I64,
    authorize: Authorize, tx: Transaction)
    requires Honest(o, signer)
    requires Built(o, signer, spends, payments, fee, cross, authorize) == Ok(tx)
    ensures Carries(signer, spends, payments, fee, cross, tx)
  {
    BuiltParts(o, signer, spends, payments, fee, cross, authorize, tx);
    AnySubaddressAt(payments);
    if spends != [] {
      assert SignsFor(o, spends, tx.inputs);
    }
  }

  /** Something on both sides unless there is a bundle, which a crossing needs; and the amounts add up. */
  predicate Asks(spends: seq<Spend>, payments: seq<Payment>, fee: U64, cross: I64, authorize: Authorize) {
    && (authorize.None? ==> spends != [] && payments != [] && cross == 0)
    && SpendTotal(spends) == PaymentTotal(payments) + fee + cross
  }

  /** The bundle comes, with a value that can be negated and states the crossing. */
  predicate Answers(authorize: Authorize, asked: Bytes32, cross: I64) {
    authorize.Some? ==>
      authorize.value(asked).Ok? &&
      authorize.value(asked).value.valueBalance != I64_MIN && authorize.value(asked).value.valueBalance + cross == 0
  }

  lemma {:induction false} EarlyRefusalIff(
    spends: seq<Spend>, payments: seq<Payment>, fee: U64, cross: I64, authorize: Authorize)
    ensures EarlyRefusal(spends, payments, fee, cross, authorize).None? <==>
              Asks(spends, payments, fee, cross, authorize)
    ensures EarlyRefusal(spends, payments, fee, cross, authorize).Some? ==>
              EarlyRefusal(spends, payments, fee, cross, authorize) == Some(
                if authorize.Some? || (spends != [] && payments != [] && cross == 0) then Unbalanced
                else if spends == [] then NoInputs
                else if payments == [] then NoOutputs
                else CrossWithoutBundle)
  {
  }

  /** A transaction is built exactly if the request is sound, the outputs prove, the bundle comes and the rings sign. */
  lemma {:induction false} BuiltIff(
    o: Crypto, signer: Signer, spends: seq<Spend>, payments: seq<Payment>, fee: U64, cross: I64,
    authorize: Authorize, draft: Transaction, whole: Transaction)
    requires Proved(signer, Outputs(signer, payments)).Ok? ==>
               && draft == Draft(signer, spends, payments, fee, cross, authorize,
                                 Proved(signer, Outputs(signer, payments)).value)
               && (Authorized(o, draft, authorize).Ok? ==>
                     whole == draft.(shielded := Authorized(o, draft, authorize).value))
    ensures Built(o, signer, spends, payments, fee, cross, authorize).Ok? <==>
              && Asks(spends, payments, fee, cross, authorize)
              && (payments != [] ==> signer.prove(Commitments(Outputs(signer, payments))).Some?)
              && Answers(authorize, o.bundleSighash(draft), cross)
              && (spends != [] ==>
                    signer.sign(spends, SumMasks(o, Commitments(Outputs(signer, payments))), o.message(whole)).Some?)
  {
    EarlyRefusalIff(spends, payments, fee, cross, authorize);
  }

  lemma VerdictOfUnbalanced(o: Crypto, tx: Transaction)
    requires ShapeVerdict(tx).None? && RangeOk(o, tx) && SignaturesOk(o, tx.inputs, o.message(tx))
    requires Balances(o, tx.PseudoOuts(), tx.OutputCommitments(), tx.fee, tx.cross) == Some(false)
    ensures BatchableVerdict(o, tx) == Err(Unbalanced)
  {
  }

  /**
   An instance: one payment p out of the shielded pool and nothing spent from rings. With
   a bundle that states the crossing the builder succeeds, and unless the mask of the
   output happens to be zero the validator refuses what it built.
   */
  lemma BuiltThenRefused(o: Crypto, signer: Signer, p: Payment, fee: U64, cross: I64, bundle: Bundle)
    requires Honest(o, signer)
    requires signer.prove([signer.makeOutput(p, 0).commitment]).Some?
    requires p.amount + fee + cross == 0 && bundle.Cross() == Some(cross)
    requires o.opening(signer.makeOutput(p, 0).commitment).mask % GROUP_ORDER != 0
    ensures var authorize := Some((sighash: Bytes32) => Ok(bundle));
            var built := Built(o, signer, [], [p], fee, cross, authorize);
            built.Ok? && VerifyVerdict(o, built.value) == Some(Unbalanced)
  {
    var authorize := Some((sighash: Bytes32) => Ok(bundle));
    var outputs := Outputs(signer, [p]);
    assert Commitments(outputs) == [signer.makeOutput(p, 0).commitment];
    assert SumMasks(o, Commitments(outputs)) == o.opening(signer.makeOutput(p, 0).commitment).mask;
    assert PaymentTotal([p]) == p.amount;
    var tx := Built(o, signer, [], [p], fee, cross, authorize).value;
    BuiltParts(o, signer, [], [p], fee, cross, authorize, tx);
    BuiltRange(o, signer, [p], tx);
    BuiltInputs(o, signer, [], tx);
    BuiltImages(o, signer, [], tx);
    BuiltShape(o, signer, [], [p], fee, cross, authorize, tx);
    BuiltBalances(o, [], [p], fee, cross, tx.PseudoOuts(), tx.OutputCommitments());
    assert tx.OutputCommitments() == Commitments(tx.outputs);
    VerdictOfUnbalanced(o, tx);
  }

  // --- the builder's loops -------------------------------------------------

  /** The output loop: one output per payment, derived under its index. */
  method BuildOutputs(signer: Signer, payments: seq<Payment>) returns (outputs: seq<Output>)
    ensures outputs == Outputs(signer, payments)
  {
    outputs := [];
    for i := 0 to |payments|
      invariant outputs == Outputs(signer, payments)[..i]
    {
      outputs := outputs + [signer.makeOutput(payments[i], i)];
    }
  }

  method HasSubaddress(payments: seq<Payment>) returns (any: bool)
    ensures any <==> AnySubaddress(payments)
  {
    AnySubaddressAt(payments);
    for i := 0 to |payments|
      invariant forall j :: 0 <= j < i ==> !payments[j].subaddress
    {
      if payments[i].subaddress {
        return true;
      }
    }
    return false;
  }

  method BuildKeys(signer: Signer, payments: seq<Payment>) returns (keys: seq<Bytes32>)
    ensures keys == AdditionalKeys(signer, payments)
  {
    keys := [];
    var any := HasSubaddress(payments);
    if any {
      for i := 0 to |payments|
        invariant keys == AdditionalKeys(signer, payments)[..i]
      {
        keys := keys + [KeyFor(signer, payments[i])];
      }
    }
  }

  lemma {:induction false} SpendTotalSnoc(spends: seq<Spend>, i: nat)
    requires i < |spends|
    ensures SpendTotal(spends[..i + 1]) == SpendTotal(spends[..i]) + spends[i].amount
  {
    if i == 0 {
      assert spends[..1][1..] == [];
    } else {
      SpendTotalSnoc(spends[1..], i - 1);
      assert spends[..i + 1][1..] == spends[1..][..i] && spends[..i][1..] == spends[1..][..i - 1];
    }
  }

  lemma {:induction false} PaymentTotalSnoc(payments: seq<Payment>, i: nat)
    requires i < |payments|
    ensures PaymentTotal(payments[..i + 1]) == PaymentTotal(payments[..i]) + payments[i].amount
  {
    if i == 0 {
      assert payments[..1][1..] == [];
    } else {
      PaymentTotalSnoc(payments[1..], i - 1);
      assert payments[..i + 1][1..] == payments[1..][..i] && payments[..i][1..] == payments[1..][..i - 1];
    }
  }

  /** The two sides of the integer balance, summed element by element. */
  method Sums(spends: seq<Spend>, payments: seq<Payment>) returns (spent: nat, paid: nat)
    ensures spent == SpendTotal(spends) && paid == PaymentTotal(payments)
  {
    spent, paid := 0, 0;
    for i := 0 to |spends|
      invariant spent == SpendTotal(spends[..i])
    {
      SpendTotalSnoc(spends, i);
      spent := spent + spends[i].amount;
    }
    for i := 0 to |payments|
      invariant paid == PaymentTotal(payments[..i])
    {
      PaymentTotalSnoc(payments, i);
      paid := paid + payments[i].amount;
    }
    assert spends[..|spends|] == spends && payments[..|payments|] == payments;
  }

  /** The builder's refusals, in its order. */
  method Refusal(spends: seq<Spend>, payments: seq<Payment>, fee: U64, cross: I64, authorize: Authorize)
    returns (refusal: Option<TxError>)
    ensures refusal == EarlyRefusal(spends, payments, fee, cross, authorize)
  {
    if authorize.None? {
      if spends == [] {
        return Some(NoInputs);
      }
      if payments == [] {
        return Some(NoOutputs);
      }
    }
    if cross != 0 && authorize.None? {
      return Some(CrossWithoutBundle);
    }
    var spent, paid := Sums(spends, payments);
    refusal := if spent != paid + fee + cross then Some(Unbalanced) else None;
  }

  /** What the signatures will cover: rings and images, no signatures yet. */
  method BuildUnsigned(spends: seq<Spend>) returns (inputs: seq<Input>)
    ensures inputs == Unsigned(spends)
  {
    inputs := [];
    for i := 0 to |spends|
      invariant inputs == Unsigned(spends)[..i]
    {
      inputs := inputs + [Input(spends[i].ring, spends[i].keyImage, 0, [])];
    }
  }

  lemma {:induction false} MasksSnoc(o: Crypto, cs: seq<Bytes32>, i: nat)
    requires i < |cs|
    ensures SumMasks(o, cs[..i + 1]) == SumMasks(o, cs[..i]) + o.opening(cs[i]).mask
  {
    if i == 0 {
      assert cs[..1][1..] == [];
    } else {
      MasksSnoc(o, cs[1..], i - 1);
      assert cs[..i + 1][1..] == cs[1..][..i] && cs[..i][1..] == cs[1..][..i - 1];
    }
  }

  /** The masks of the outputs, summed. */
  method MaskSum(o: Crypto, outputs: seq<Output>) returns (masks: nat)
    ensures masks == SumMasks(o, Commitments(outputs))
  {
    masks := 0;
    ghost var cs := Commitments(outputs);
    for i := 0 to |outputs|
      invariant masks == SumMasks(o, cs[..i])
    {
      MasksSnoc(o, cs, i);
      masks := masks + o.opening(outputs[i].commitment).mask;
    }
    assert cs[..|outputs|] == cs;
  }

  /** `build_with_shielded`. */
  method Build(o: Crypto, signer: Signer, spends: seq<Spend>, payments: seq<Payment>, fee: U64, cross: I64,
    authorize: Authorize) returns (r: Result<Transaction, TxError>)
    ensures r == Built(o, signer, spends, payments, fee, cross, authorize)
  {
    var refusal := Refusal(spends, payments, fee, cross, authorize);
    if refusal.Some? {
      return Err(refusal.value);
    }
    var version: Byte := if cross != 0 || authorize.Some? then TX_VERSION_SHIELDED else TX_VERSION;
    var outputs := BuildOutputs(signer, payments);
    var keys := BuildKeys(signer, payments);
    var proof: Option<seq<Byte>> := None;
    if outputs != [] {
      proof := signer.prove(Commitments(outputs));
      if proof.None? {
        return Err(BadRangeProof);
      }
    }
    var unsigned := BuildUnsigned(spends);
    var tx := Transaction(version, signer.txPublic, keys, fee, unsigned, outputs, proof, cross, None);
    if authorize.Some? {
      var bundle := authorize.value(o.bundleSighash(tx));
      if bundle.Err? {
        return Err(bundle.error);
      }
      var stated := bundle.value.Cross();
      if stated.None? {
        return Err(Shielded(UnrepresentableValue));
      }
      if stated.value != cross {
        return Err(CrossMismatch(cross, stated.value));
      }
      tx := tx.(shielded := Some(bundle.value));
    }
    if spends != [] {
      var masks := MaskSum(o, outputs);
      var signed := signer.sign(spends, masks, o.message(tx));
      if signed.None? {
        return Err(BadRingSignature);
      }
      tx := tx.(inputs := signed.value);
    }
    r := Ok(tx);
  }
}
