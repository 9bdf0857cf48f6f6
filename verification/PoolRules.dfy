/**
 The rules for the shielded half of a block, stated outright: `apply_block` succeeds
 exactly under these conditions, and leaves exactly this behind
 (noct/core/src/shielded_state.rs).
 */
module PoolRules {
  import opened Types
  import opened Data
  import opened Oracles
  import opened Pools
  import opened ShieldedPool
  import opened Supply
  import opened TxRules

  /** The nullifiers of the bundles, in order. */
  function NullifiersOf(bundles: seq<Bundle>): seq<Bytes32> {
    if bundles == [] then []
    else
      var own := bundles[0].actions;
      seq(|own|, i requires 0 <= i < |own| => own[i].nullifier) + NullifiersOf(bundles[1..])
  }

  /** The notes of the bundles, in order. */
  function NotesIn(bundles: seq<Bundle>): seq<Bytes32> {
    if bundles == [] then []
    else
      var own := bundles[0].actions;
      seq(|own|, i requires 0 <= i < |own| => own[i].cmx) + NotesIn(bundles[1..])
  }

  lemma {:induction false} NotesAre(bundles: seq<Bundle>)
    ensures BundleCommitments(bundles) == NotesIn(bundles)
  {
    if bundles != [] {
      NotesAre(bundles[1..]);
    }
  }

  // --- the reward ----------------------------------------------------------

  /** The subsidy is new in its pool; the fees of a shielded reward come over from the ring pool. */
  function Rewarded(t: Totals, credit: CoinbaseCredit): (int, int) {
    if credit.pool == Ring then (t.ring + credit.subsidy, t.shielded)
    else (t.ring - credit.fees, t.shielded + credit.subsidy + credit.fees)
  }

  predicate InRange(totals: (int, int)) {
    0 <= totals.0 <= U64_MAX && 0 <= totals.1 <= U64_MAX
  }

  predicate CreditFits(t: Totals, credit: CoinbaseCredit) {
    InRange(Rewarded(t, credit)) && (credit.pool == Shielded ==> credit.fees < TWO_63)
  }

  lemma {:induction false} CreditedIff(t: Totals, credit: CoinbaseCredit)
    ensures Credited(t, credit).Ok? <==> CreditFits(t, credit)
    ensures Credited(t, credit).Ok? ==>
              (Credited(t, credit).value.ring as int, Credited(t, credit).value.shielded as int) == Rewarded(t, credit)
  {
  }

  // --- the bundles ---------------------------------------------------------

  /** After every bundle both totals are still in range. */
  predicate StaysInRange(ring: int, shielded: int, bundles: seq<Bundle>) {
    forall k :: 0 <= k <= |bundles| ==>
      InRange((ring - CrossSum(bundles[..k]), shielded + CrossSum(bundles[..k])))
  }

  /** Known anchors, crossings that can be negated, and nullifiers that are new and differ. */
  predicate BundlesFit(p: PoolState, bundles: seq<Bundle>, added: seq<Bytes32>) {
    && (forall i :: 0 <= i < |bundles| ==> bundles[i].anchor in p.anchors && bundles[i].valueBalance != I64_MIN)
    && AllDiffer(NullifiersOf(bundles))
    && (forall n :: n in NullifiersOf(bundles) ==> n !in p.nullifiers && n !in added)
  }

  lemma {:induction false} BankedIff(spent: set<Bytes32>, added: seq<Bytes32>, ns: seq<Bytes32>)
    ensures Banked(spent, added, ns).Ok? <==> AllDiffer(ns) && forall n :: n in ns ==> n !in spent && n !in added
    decreases |ns|
  {
    if ns != [] && ns[0] !in spent && ns[0] !in added {
      BankedIff(spent, added + [ns[0]], ns[1..]);
      ConcatDiffers([ns[0]], ns[1..]);
      assert ns == [ns[0]] + ns[1..];
    }
  }

  lemma {:induction false} FirstCrossing(bundles: seq<Bundle>, k: nat)
    requires 1 <= k <= |bundles|
    ensures CrossSum(bundles[..k]) == CrossSum(bundles[1..][..k - 1]) - bundles[0].valueBalance
  {
    assert bundles[..k][1..] == bundles[1..][..k - 1];
  }

  lemma {:induction false} RangeSplits(ring: int, shielded: int, bundles: seq<Bundle>)
    requires bundles != [] && InRange((ring, shielded))
    ensures StaysInRange(ring, shielded, bundles) <==>
              var v := bundles[0].valueBalance as int;
              InRange((ring + v, shielded - v)) && StaysInRange(ring + v, shielded - v, bundles[1..])
  {
    var v := bundles[0].valueBalance as int;
    assert bundles[..0] == [] && bundles[1..][..0] == [];
    forall k | 1 <= k <= |bundles|
      ensures InRange((ring - CrossSum(bundles[..k]), shielded + CrossSum(bundles[..k]))) <==>
              InRange((ring + v - CrossSum(bundles[1..][..k - 1]), shielded - v + CrossSum(bundles[1..][..k - 1])))
    {
      FirstCrossing(bundles, k);
    }
    if StaysInRange(ring, shielded, bundles) {
      assert InRange((ring - CrossSum(bundles[..1]), shielded + CrossSum(bundles[..1])));
      forall k | 0 <= k <= |bundles[1..]|
        ensures InRange((ring + v - CrossSum(bundles[1..][..k]), shielded - v + CrossSum(bundles[1..][..k])))
      {
        assert InRange((ring - CrossSum(bundles[..k + 1]), shielded + CrossSum(bundles[..k + 1])));
      }
    }
  }

  lemma {:induction false} FitSplits(p: PoolState, bundles: seq<Bundle>, added: seq<Bytes32>)
    requires bundles != []
    ensures BundlesFit(p, bundles, added) <==>
              && bundles[0].anchor in p.anchors && bundles[0].valueBalance != I64_MIN
              && Banked(p.nullifiers, added, bundles[0].Nullifiers()).Ok?
              && BundlesFit(p, bundles[1..], added + bundles[0].Nullifiers())
  {
    var own, others := bundles[0].Nullifiers(), NullifiersOf(bundles[1..]);
    assert NullifiersOf(bundles) == own + others;
    BankedIff(p.nullifiers, added, own);
    ConcatDiffers(own, others);
    assert forall i :: 1 <= i < |bundles| ==> bundles[i] == bundles[1..][i - 1];
  }

  /** What a pass over the bundles must come to. */
  ghost predicate ScansRight(p: PoolState, bundles: seq<Bundle>, acc: Scan) {
    var got := ScanBundles(p, bundles, acc);
    && (got.Ok? <==>
          BundlesFit(p, bundles, acc.added) && StaysInRange(acc.totals.ring, acc.totals.shielded, bundles))
    && (got.Ok? ==>
          got.value.added == acc.added + NullifiersOf(bundles)
          && got.value.totals.ring == acc.totals.ring - CrossSum(bundles)
          && got.value.totals.shielded == acc.totals.shielded + CrossSum(bundles))
  }

  /** One bundle: what it takes, and what it leaves. */
  lemma {:induction false} ScanBundleIff(p: PoolState, bundle: Bundle, acc: Scan)
    ensures var v, got := bundle.valueBalance as int, ScanBundle(p, bundle, acc);
            && (got.Ok? <==>
                  && bundle.anchor in p.anchors && v != I64_MIN
                  && Banked(p.nullifiers, acc.added, bundle.Nullifiers()).Ok?
                  && InRange((acc.totals.ring + v, acc.totals.shielded - v)))
            && (got.Ok? ==>
                  && got.value.added == acc.added + bundle.Nullifiers()
                  && got.value.totals.ring == acc.totals.ring + v
                  && got.value.totals.shielded == acc.totals.shielded - v)
  {
    if bundle.valueBalance != I64_MIN {
      CrossingIsConservative(acc.totals, bundle.Cross().value);
    }
  }

  lemma {:induction false} ListsSplit(bundles: seq<Bundle>, added: seq<Bytes32>)
    requires bundles != []
    ensures added + NullifiersOf(bundles) == (added + bundles[0].Nullifiers()) + NullifiersOf(bundles[1..])
    ensures CrossSum(bundles) == CrossSum(bundles[1..]) - bundles[0].valueBalance
  {
    assert NullifiersOf(bundles) == bundles[0].Nullifiers() + NullifiersOf(bundles[1..]);
  }

  lemma {:induction false} ScanStep(p: PoolState, bundles: seq<Bundle>, acc: Scan)
    requires bundles != []
    requires ScanBundle(p, bundles[0], acc).Ok? ==> ScansRight(p, bundles[1..], ScanBundle(p, bundles[0], acc).value)
    ensures ScansRight(p, bundles, acc)
  {
    ScanBundleIff(p, bundles[0], acc);
    FitSplits(p, bundles, acc.added);
    RangeSplits(acc.totals.ring, acc.totals.shielded, bundles);
    ListsSplit(bundles, acc.added);
  }

  lemma {:induction false} ScanIff(p: PoolState, bundles: seq<Bundle>, acc: Scan)
    ensures ScansRight(p, bundles, acc)
    decreases |bundles|
  {
    if bundles == [] {
      assert acc.added + [] == acc.added && bundles[..0] == [];
    } else {
      if ScanBundle(p, bundles[0], acc).Ok? {
        ScanIff(p, bundles[1..], ScanBundle(p, bundles[0], acc).value);
      }
      ScanStep(p, bundles, acc);
    }
  }

  // --- the whole block -----------------------------------------------------

  /** The leaves a block adds: the rewards that are due, oldest first, then the notes of its bundles. */
  function NewLeaves(p: PoolState, bundles: seq<Bundle>, height: nat, maturity: U64): seq<Bytes32> {
    Notes(p.pending[..DueCount(p.pending, height, maturity)]) + NotesIn(bundles)
  }

  /** Field elements all, and room for them. */
  predicate LeavesFit(o: Crypto, tree: seq<Bytes32>, leaves: seq<Bytes32>) {
    (forall n :: n in leaves ==> o.noteOk(n)) && (leaves == [] || |tree| + |leaves| <= TWO_32)
  }

  /** Everything `apply_block` asks for. */
  predicate PoolAccepts(
    o: Crypto, p: PoolState, bundles: seq<Bundle>, credit: CoinbaseCredit, height: nat, maturity: U64)
  {
    && CreditFits(p.totals, credit)
    && LeavesFit(o, p.tree, NewLeaves(p, bundles, height, maturity))
    && BundlesFit(p, bundles, [])
    && StaysInRange(Rewarded(p.totals, credit).0, Rewarded(p.totals, credit).1, bundles)
  }

  /** The newest of at most 100 anchors is this root, those before it are the ones there were. */
  predicate AnchorsBecome(before: seq<Bytes32>, after: seq<Bytes32>, root: Bytes32) {
    && after != [] && after[|after| - 1] == root && |after| == Min(|before| + 1, 100)
    && after[..|after| - 1] == before[|before| + 1 - |after|..]
  }

  /** Everything it leaves: tree, nullifiers, totals, queue and anchors. */
  predicate PoolBecomes(
    o: Crypto, p: PoolState, after: PoolState, bundles: seq<Bundle>, credit: CoinbaseCredit, height: nat,
    maturity: U64)
  {
    var due := DueCount(p.pending, height, maturity);
    && after.tree == p.tree + NewLeaves(p, bundles, height, maturity)
    && after.nullifiers == p.nullifiers + SetOf(NullifiersOf(bundles))
    && after.totals.ring == Rewarded(p.totals, credit).0 - CrossSum(bundles)
    && after.totals.shielded == Rewarded(p.totals, credit).1 + CrossSum(bundles)
    && after.pending == p.pending[due..] + (if credit.note.Some? then [Queued(height, credit.note.value)] else [])
    && AnchorsBecome(p.anchors, after.anchors, o.treeRoot(after.tree))
  }

  lemma {:induction false} RecentAnchors(anchors: seq<Bytes32>, root: Bytes32)
    ensures AnchorsBecome(anchors, Recent(anchors + [root]), root)
  {
  }

  /** The parts of an applied block's state. */
  lemma {:induction false} AppliedParts(
    o: Crypto, p: PoolState, bundles: seq<Bundle>, credit: CoinbaseCredit, height: nat, maturity: U64)
    requires Apply(o, p, bundles, credit, height, maturity).Ok?
    ensures Credited(p.totals, credit).Ok?
    ensures var after := Apply(o, p, bundles, credit, height, maturity).value.after;
            var due, scan := DueCount(p.pending, height, maturity),
                             ScanBundles(p, bundles, Scan([], Credited(p.totals, credit).value));
            && scan.Ok? && after.nullifiers == p.nullifiers + SetOf(scan.value.added)
            && after.totals == scan.value.totals
            && after.tree == p.tree + BlockCommitments(p, bundles, height, maturity)
            && after.anchors == Recent(p.anchors + [o.treeRoot(after.tree)])
            && after.pending == p.pending[due..] + QueuedNote(credit, height)
  {
  }

  lemma {:induction false} AcceptsIff(
    o: Crypto, p: PoolState, bundles: seq<Bundle>, credit: CoinbaseCredit, height: nat, maturity: U64)
    ensures Apply(o, p, bundles, credit, height, maturity).Ok? <==>
              PoolAccepts(o, p, bundles, credit, height, maturity)
  {
    CreditedIff(p.totals, credit);
    NotesAre(bundles);
    if Credited(p.totals, credit).Ok? {
      ScanIff(p, bundles, Scan([], Credited(p.totals, credit).value));
    }
  }

  lemma {:induction false} AppliedBecomes(
    o: Crypto, p: PoolState, bundles: seq<Bundle>, credit: CoinbaseCredit, height: nat, maturity: U64,
    after: PoolState)
    requires Apply(o, p, bundles, credit, height, maturity).Ok?
    requires after == Apply(o, p, bundles, credit, height, maturity).value.after
    ensures PoolBecomes(o, p, after, bundles, credit, height, maturity)
  {
    AppliedParts(o, p, bundles, credit, height, maturity);
    CreditedIff(p.totals, credit);
    NotesAre(bundles);
    RecentAnchors(p.anchors, o.treeRoot(after.tree));
    ScanIff(p, bundles, Scan([], Credited(p.totals, credit).value));
    assert [] + NullifiersOf(bundles) == NullifiersOf(bundles);
  }

  /** `apply_block` succeeds exactly when the block fits the pool, and then moves it as stated. */
  lemma {:induction false} AppliesIff(
    o: Crypto, p: PoolState, bundles: seq<Bundle>, credit: CoinbaseCredit, height: nat, maturity: U64)
    ensures Apply(o, p, bundles, credit, height, maturity).Ok? <==>
              PoolAccepts(o, p, bundles, credit, height, maturity)
    ensures Apply(o, p, bundles, credit, height, maturity).Ok? ==>
              PoolBecomes(o, p, Apply(o, p, bundles, credit, height, maturity).value.after, bundles, credit, height,
                          maturity)
  {
    AcceptsIff(o, p, bundles, credit, height, maturity);
    if Apply(o, p, bundles, credit, height, maturity).Ok? {
      AppliedBecomes(o, p, bundles, credit, height, maturity,
                     Apply(o, p, bundles, credit, height, maturity).value.after);
    }
  }

  // --- the errors ----------------------------------------------------------

  /** What a crossing does wrong, seen from the ring pool's side: the paying pool is asked first. */
  predicate CrossFault(ring: int, shielded: int, cross: int, e: TurnstileError) {
    if cross == I64_MIN then e == NotRepresentable
    else if cross > 0 then
      match e
      case Underflow(pool, held, taking) => pool == Ring && held == ring && taking == cross && cross > ring
      case Overflow(pool, held, adding) =>
        pool == Shielded && held == shielded && adding == cross && cross <= ring && shielded + cross > U64_MAX
      case NotRepresentable => false
    else
      match e
      case Underflow(pool, held, taking) =>
        pool == Shielded && held == shielded && taking == -cross && -cross > shielded
      case Overflow(pool, held, adding) =>
        pool == Ring && held == ring && adding == -cross && -cross <= shielded && ring - cross > U64_MAX
      case NotRepresentable => false
  }

  lemma {:induction false} CrossedReports(t: Totals, cross: I64)
    requires Crossed(t, cross).Err?
    ensures CrossFault(t.ring, t.shielded, cross, Crossed(t, cross).error)
  {
  }

  /** What a reward does wrong: the subsidy has no room, or the fees of a shielded one cannot be moved. */
  predicate CreditFault(t: Totals, credit: CoinbaseCredit, e: TurnstileError) {
    if t.Get(credit.pool) + credit.subsidy > U64_MAX then
      e == Overflow(credit.pool, t.Get(credit.pool), credit.subsidy)
    else
      && credit.pool == Shielded
      && if credit.fees >= TWO_63 then e == NotRepresentable
         else CrossFault(t.ring, t.shielded + credit.subsidy, credit.fees, e)
  }

  lemma {:induction false} CreditedReports(t: Totals, credit: CoinbaseCredit)
    requires Credited(t, credit).Err?
    ensures CreditFault(t, credit, Credited(t, credit).error)
  {
    var minted := if credit.subsidy > 0 then Minted(t, credit.pool, credit.subsidy) else Ok(t);
    if minted.Ok? && credit.pool == Shielded && 0 < credit.fees < TWO_63 {
      CrossedReports(minted.value, credit.fees);
    }
  }

  /** The i-th note is the first that is no field element, or that finds no room. */
  predicate NoteFaultAt(o: Crypto, tree: nat, notes: seq<Bytes32>, i: nat, e: ShieldedStateError) {
    && i < |notes| && (forall j :: 0 <= j < i ==> o.noteOk(notes[j]) && tree + j < TWO_32)
    && if !o.noteOk(notes[i]) then e == BadCommitment(notes[i]) else tree + i >= TWO_32 && e == TreeFull
  }

  lemma {:induction false} NoteFurtherOn(o: Crypto, tree: nat, notes: seq<Bytes32>, i: nat, e: ShieldedStateError)
    requires notes != [] && o.noteOk(notes[0]) && tree < TWO_32
    requires NoteFaultAt(o, tree + 1, notes[1..], i, e)
    ensures NoteFaultAt(o, tree, notes, i + 1, e)
  {
    assert notes[1..][i] == notes[i + 1];
    assert forall j :: 1 <= j < i + 1 ==> notes[j] == notes[1..][j - 1];
  }

  lemma {:induction false} AppendedReports(o: Crypto, tree: seq<Bytes32>, notes: seq<Bytes32>) returns (i: nat)
    requires Appended(o, tree, notes).Err?
    ensures NoteFaultAt(o, |tree|, notes, i, Appended(o, tree, notes).error)
    decreases |notes|
  {
    if !o.noteOk(notes[0]) || |tree| >= TWO_32 {
      i := 0;
    } else {
      i := AppendedReports(o, tree + [notes[0]], notes[1..]);
      NoteFurtherOn(o, |tree|, notes, i, Appended(o, tree, notes).error);
      i := i + 1;
    }
  }

  /** The first nullifier that is spent, or listed before. */
  ghost predicate NullifierFault(spent: set<Bytes32>, added: seq<Bytes32>, ns: seq<Bytes32>, e: ShieldedStateError) {
    exists i :: 0 <= i < |ns| && AllDiffer(ns[..i]) && (forall n :: n in ns[..i] ==> n !in spent && n !in added)
           && (ns[i] in spent || ns[i] in added || ns[i] in ns[..i]) && e == DuplicateNullifier(ns[i])
  }

  lemma {:induction false} RepeatFurtherOn(
    spent: set<Bytes32>, added: seq<Bytes32>, ns: seq<Bytes32>, i: nat)
    requires ns != [] && ns[0] !in spent && ns[0] !in added && i < |ns[1..]|
    requires AllDiffer(ns[1..][..i]) && forall n :: n in ns[1..][..i] ==> n !in spent && n !in added + [ns[0]]
    ensures AllDiffer(ns[..i + 1]) && forall n :: n in ns[..i + 1] ==> n !in spent && n !in added
    ensures forall x :: x in ns[..i + 1] <==> x == ns[0] || x in ns[1..][..i]
  {
    assert ns[..i + 1] == [ns[0]] + ns[1..][..i];
    ConcatDiffers([ns[0]], ns[1..][..i]);
  }

  lemma {:induction false} BankedReports(spent: set<Bytes32>, added: seq<Bytes32>, ns: seq<Bytes32>)
    requires Banked(spent, added, ns).Err?
    ensures NullifierFault(spent, added, ns, Banked(spent, added, ns).error)
    decreases |ns|
  {
    if ns[0] in spent || ns[0] in added {
      assert ns[..0] == [];
    } else {
      var e, more := Banked(spent, added, ns).error, added + [ns[0]];
      BankedReports(spent, more, ns[1..]);
      var i :| 0 <= i < |ns[1..]| && AllDiffer(ns[1..][..i])
                && (forall n :: n in ns[1..][..i] ==> n !in spent && n !in more)
                && (ns[1..][i] in spent || ns[1..][i] in more || ns[1..][i] in ns[1..][..i])
                && e == DuplicateNullifier(ns[1..][i]);
      RepeatFurtherOn(spent, added, ns, i);
      assert ns[i + 1] == ns[1..][i];
    }
  }

  /** What a bundle does wrong after others that added these nullifiers and left these totals. */
  ghost predicate BundleFault(
    p: PoolState, ring: int, shielded: int, added: seq<Bytes32>, bundle: Bundle, e: ShieldedStateError)
  {
    var ns := bundle.Nullifiers();
    if bundle.anchor !in p.anchors then e == UnknownAnchor(bundle.anchor)
    else if !AllDiffer(ns) || exists n :: n in ns && (n in p.nullifiers || n in added) then
      NullifierFault(p.nullifiers, added, ns, e)
    else if bundle.valueBalance == I64_MIN then e == Turnstile(NotRepresentable)
    else e.Turnstile? && CrossFault(ring, shielded, -(bundle.valueBalance as int), e.cause)
  }

  lemma {:induction false} ScanBundleReports(p: PoolState, bundle: Bundle, acc: Scan)
    requires ScanBundle(p, bundle, acc).Err?
    ensures BundleFault(p, acc.totals.ring, acc.totals.shielded, acc.added, bundle, ScanBundle(p, bundle, acc).error)
  {
    BankedIff(p.nullifiers, acc.added, bundle.Nullifiers());
    if Banked(p.nullifiers, acc.added, bundle.Nullifiers()).Err? {
      BankedReports(p.nullifiers, acc.added, bundle.Nullifiers());
    } else if bundle.Cross().Some? && Crossed(acc.totals, bundle.Cross().value).Err? {
      CrossedReports(acc.totals, bundle.Cross().value);
    }
  }

  /** The i-th bundle is the first that does not fit after those before it. */
  ghost predicate FirstBad(
    p: PoolState, ring: int, shielded: int, added: seq<Bytes32>, bundles: seq<Bundle>, i: nat, e: ShieldedStateError)
  {
    && i < |bundles| && BundlesFit(p, bundles[..i], added) && StaysInRange(ring, shielded, bundles[..i])
    && BundleFault(p, ring - CrossSum(bundles[..i]), shielded + CrossSum(bundles[..i]),
                   added + NullifiersOf(bundles[..i]), bundles[i], e)
  }

  lemma {:induction false} HeadOf(bundles: seq<Bundle>, i: nat)
    requires bundles != [] && i < |bundles[1..]|
    ensures bundles[..i + 1] != [] && bundles[..i + 1][1..] == bundles[1..][..i] && bundles[..i + 1][0] == bundles[0]
    ensures NullifiersOf(bundles[..i + 1]) == bundles[0].Nullifiers() + NullifiersOf(bundles[1..][..i])
    ensures CrossSum(bundles[..i + 1]) == CrossSum(bundles[1..][..i]) - bundles[0].valueBalance
  {
    assert bundles[..i + 1][1..] == bundles[1..][..i];
    FirstCrossing(bundles, i + 1);
  }

  lemma {:induction false} HeadFits(p: PoolState, bundles: seq<Bundle>, acc: Scan, i: nat)
    requires bundles != [] && ScanBundle(p, bundles[0], acc).Ok? && i < |bundles[1..]|
    requires var step := ScanBundle(p, bundles[0], acc).value;
             && BundlesFit(p, bundles[1..][..i], step.added)
             && StaysInRange(step.totals.ring, step.totals.shielded, bundles[1..][..i])
    ensures BundlesFit(p, bundles[..i + 1], acc.added)
    ensures StaysInRange(acc.totals.ring, acc.totals.shielded, bundles[..i + 1])
  {
    HeadOf(bundles, i);
    CrossingIsConservative(acc.totals, bundles[0].Cross().value);
    FitSplits(p, bundles[..i + 1], acc.added);
    RangeSplits(acc.totals.ring, acc.totals.shielded, bundles[..i + 1]);
  }

  lemma {:induction false} BadFurtherOn(
    p: PoolState, bundles: seq<Bundle>, acc: Scan, i: nat, e: ShieldedStateError)
    requires bundles != [] && ScanBundle(p, bundles[0], acc).Ok?
    requires var step := ScanBundle(p, bundles[0], acc).value;
             FirstBad(p, step.totals.ring, step.totals.shielded, step.added, bundles[1..], i, e)
    ensures FirstBad(p, acc.totals.ring, acc.totals.shielded, acc.added, bundles, i + 1, e)
  {
    HeadOf(bundles, i);
    HeadFits(p, bundles, acc, i);
    CrossingIsConservative(acc.totals, bundles[0].Cross().value);
    assert (acc.added + bundles[0].Nullifiers()) + NullifiersOf(bundles[1..][..i]) ==
           acc.added + NullifiersOf(bundles[..i + 1]);
    assert bundles[i + 1] == bundles[1..][i];
  }

  lemma {:induction false} BadFound(p: PoolState, bundles: seq<Bundle>, acc: Scan) returns (i: nat)
    requires ScanBundles(p, bundles, acc).Err?
    ensures FirstBad(p, acc.totals.ring, acc.totals.shielded, acc.added, bundles, i,
                     ScanBundles(p, bundles, acc).error)
    decreases |bundles|
  {
    var step := ScanBundle(p, bundles[0], acc);
    if step.Err? {
      i := 0;
      assert bundles[..0] == [] && acc.added + [] == acc.added;
      ScanBundleReports(p, bundles[0], acc);
    } else {
      i := BadFound(p, bundles[1..], step.value);
      BadFurtherOn(p, bundles, acc, i, ScanBundles(p, bundles, acc).error);
      i := i + 1;
    }
  }

  /** The first thing wrong with a block's shielded half: its reward, then its notes, then its bundles. */
  ghost predicate PoolFault(
    o: Crypto, p: PoolState, bundles: seq<Bundle>, credit: CoinbaseCredit, height: nat, maturity: U64,
    e: ShieldedStateError)
  {
    var leaves := NewLeaves(p, bundles, height, maturity);
    if !CreditFits(p.totals, credit) then e.Turnstile? && CreditFault(p.totals, credit, e.cause)
    else if !LeavesFit(o, p.tree, leaves) then exists i: nat :: NoteFaultAt(o, |p.tree|, leaves, i, e)
    else
      exists i: nat ::
        FirstBad(p, Rewarded(p.totals, credit).0, Rewarded(p.totals, credit).1, [], bundles, i, e)
  }

  /** A refusal by `apply_block` names the first thing wrong. */
  lemma {:induction false} ApplyReports(
    o: Crypto, p: PoolState, bundles: seq<Bundle>, credit: CoinbaseCredit, height: nat, maturity: U64)
    requires Apply(o, p, bundles, credit, height, maturity).Err?
    ensures PoolFault(o, p, bundles, credit, height, maturity, Apply(o, p, bundles, credit, height, maturity).error)
  {
    var leaves := NewLeaves(p, bundles, height, maturity);
    CreditedIff(p.totals, credit);
    NotesAre(bundles);
    if Credited(p.totals, credit).Err? {
      CreditedReports(p.totals, credit);
    } else if Appended(o, p.tree, leaves).Err? {
      var i := AppendedReports(o, p.tree, leaves);
    } else {
      var i := BadFound(p, bundles, Scan([], Credited(p.totals, credit).value));
    }
  }
}
