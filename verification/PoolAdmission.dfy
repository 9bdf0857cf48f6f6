/**
 Who gets into the pool of unconfirmed transactions, stated outright: every condition at
 once, whatever the order in which they are checked (noct/core/src/mempool.rs).
 */
module PoolAdmission {
  import opened Types
  import opened Data
  import opened Oracles
  import opened Ledgers
  import opened Mempools
  import opened TxRules

  /** Some pooled transaction spends what this one spends. */
  ghost predicate Conflicts(p: Pooled, tx: Transaction) {
    exists h, i, j :: h in p && 0 <= i < |p[h].inputs| && 0 <= j < |tx.inputs|
                && p[h].inputs[i].keyImage == tx.inputs[j].keyImage
  }

  /** It fits within 32 MiB, if need be in place of transactions that rate strictly lower. */
  ghost predicate HasRoom(size: Measure, p: Pooled, tx: Transaction) {
    exists victims :: victims <= p.Keys && (forall v :: v in victims ==> Rate(size, p[v]) < Rate(size, tx))
                && TotalSize(size, p) - Freed(size, p, victims) + size(tx) <= 33_554_432
  }

  /** Valid on the chain by itself. */
  ghost predicate Stands(o: Crypto, s: Ledger, tx: Transaction) {
    Acceptable(o, s, tx) && (tx.shielded.Some? ==> o.bundleOk(tx.shielded.value, o.bundleSighash(tx)))
  }

  /** Everything admission asks for. */
  ghost predicate Admits(o: Crypto, size: Measure, s: Ledger, p: Pooled, tx: Transaction) {
    && o.txHash(tx) !in p && !Conflicts(p, tx) && tx.fee >= MinFee(size(tx))
    && Stands(o, s, tx) && HasRoom(size, p, tx)
  }

  lemma {:induction false} ClaimedIff(p: Pooled, tx: Transaction)
    ensures Claimed(p, tx.KeyImages()) <==> Conflicts(p, tx)
  {
    if Claimed(p, tx.KeyImages()) {
      var h, image :| h in p && image in tx.KeyImages() && image in p[h].KeyImages();
      var i :| 0 <= i < |p[h].inputs| && p[h].KeyImages()[i] == image;
      var j :| 0 <= j < |tx.inputs| && tx.KeyImages()[j] == image;
      assert p[h].inputs[i].keyImage == tx.inputs[j].keyImage;
    }
    if Conflicts(p, tx) {
      var h, i, j :| h in p && 0 <= i < |p[h].inputs| && 0 <= j < |tx.inputs|
                && p[h].inputs[i].keyImage == tx.inputs[j].keyImage;
      var image := tx.KeyImages()[j];
      assert p[h].KeyImages()[i] == image;
      assert image in tx.KeyImages() && image in p[h].KeyImages();
    }
  }

  lemma {:induction false} NoRoomIff(size: Measure, p: Pooled, tx: Transaction)
    ensures NoRoom(size, p, tx) <==> !HasRoom(size, p, tx)
  {
    NoRoomWhateverGoes(size, p, tx);
    var cheaper := Cheaper(size, p, Rate(size, tx));
    assert cheaper <= p.Keys;
    forall victims | victims <= p.Keys && forall v :: v in victims ==> Rate(size, p[v]) < Rate(size, tx)
      ensures victims <= cheaper
    {
    }
  }

  /** A transaction is admitted exactly if it meets every condition, and is then known by its hash. */
  lemma {:induction false} AdmittedIff(o: Crypto, size: Measure, s: Ledger, p: Pooled, tx: Transaction)
    ensures AddVerdict(o, size, TxVerdict(o, s, tx), p, tx).Ok? <==> Admits(o, size, s, p, tx)
    ensures AddVerdict(o, size, TxVerdict(o, s, tx), p, tx).Ok? ==>
              AddVerdict(o, size, TxVerdict(o, s, tx), p, tx).value == o.txHash(tx)
  {
    ClaimedIff(p, tx);
    TxVerdictIff(o, s, tx);
    NoRoomIff(size, p, tx);
  }

  /** The first condition a refused transaction fails; one that is not valid is told why. */
  ghost predicate Refusal(o: Crypto, size: Measure, s: Ledger, p: Pooled, tx: Transaction, e: MempoolError) {
    if o.txHash(tx) in p then e == AlreadyKnown
    else if Conflicts(p, tx) then e == PoolConflict
    else if tx.fee < MinFee(size(tx)) then e == FeeTooLow(MinFee(size(tx)))
    else if !FitsChain(s, tx) then e.Invalid? && ChainFault(s, tx, e.cause)
    else if !Formed(tx) || !Proves(o, tx) then e.Invalid? && e.cause.InvalidTx? && OwnFault(o, tx, e.cause.reason)
    else if !Stands(o, s, tx) then e == Invalid(InvalidTx(Shielded(BadProof)))
    else !HasRoom(size, p, tx) && e == PoolFull
  }

  lemma {:induction false} InvalidBecause(o: Crypto, s: Ledger, tx: Transaction, e: ChainError)
    requires TxVerdict(o, s, tx) == Some(e)
    ensures if !FitsChain(s, tx) then ChainFault(s, tx, e)
            else if !Formed(tx) || !Proves(o, tx) then e.InvalidTx? && OwnFault(o, tx, e.reason)
            else e == InvalidTx(Shielded(BadProof))
  {
    ChainVerdictIff(s, tx);
    BatchableVerdictIff(o, tx);
    if ChainVerdict(s, tx).Some? {
      ChainVerdictReports(s, tx);
    } else if BatchableVerdict(o, tx).Err? {
      BatchableVerdictReports(o, tx);
    }
  }

  /** A refusal names the first condition that fails. */
  lemma {:induction false} RefusalReports(o: Crypto, size: Measure, s: Ledger, p: Pooled, tx: Transaction)
    requires AddVerdict(o, size, TxVerdict(o, s, tx), p, tx).Err?
    ensures Refusal(o, size, s, p, tx, AddVerdict(o, size, TxVerdict(o, s, tx), p, tx).error)
  {
    ClaimedIff(p, tx);
    TxVerdictIff(o, s, tx);
    NoRoomIff(size, p, tx);
    if TxVerdict(o, s, tx).Some? {
      InvalidBecause(o, s, tx, TxVerdict(o, s, tx).value);
    }
  }
}
