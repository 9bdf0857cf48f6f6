/**
 The shielded pool's chain state (noct/core/src/shielded_state.rs): note tree,
 nullifiers, accepted anchors, pool totals and the queue of coinbase notes that are
 not yet in the tree. The tree is the sequence of its leaves, oldest first.
 */
module ShieldedPool {
  import opened Types
  import opened Data
  import opened Oracles
  import opened Pools

  const ANCHOR_DEPTH: nat := 100
  const TREE_CAPACITY: nat := TWO_32

  datatype ShieldedStateError =
    | DuplicateNullifier(nullifier: Bytes32)
    | UnknownAnchor(anchor: Bytes32)
    | TreeFull
    | BadCommitment(note: Bytes32)
    | Turnstile(cause: TurnstileError)

  datatype CoinbaseCredit = CoinbaseCredit(pool: Pool, subsidy: U64, fees: U64, note: Option<Bytes32>)

  /** A coinbase note waiting to mature, with the height that queued it. */
  datatype Queued = Queued(height: nat, note: Bytes32)

  /** The whole state as a value. */
  datatype PoolState = PoolState(
    tree: seq<Bytes32>,
    nullifiers: set<Bytes32>,
    anchors: seq<Bytes32>,
    totals: Totals,
    pending: seq<Queued>)

  datatype ShieldedUndo = ShieldedUndo(
    treeBefore: seq<Bytes32>,
    totalsBefore: Totals,
    nullifiersAdded: seq<Bytes32>,
    anchorsBefore: seq<Bytes32>,
    coinbaseQueued: bool,
    coinbaseMatured: seq<Queued>)

  datatype Applied = Applied(after: PoolState, undo: ShieldedUndo)

  // --- specification -------------------------------------------------------

  function EmptyPool(o: Crypto): PoolState {
    PoolState([], {}, [o.treeRoot([])], Totals(0, 0), [])
  }

  predicate DueAt(entry: Queued, height: nat, maturity: U64) {
    SaturatingAdd(height, 1) >= SaturatingAdd(entry.height, maturity)
  }

  /** How many entries at the front of the queue are due: the scan stops at the first that is not. */
  function DueCount(pending: seq<Queued>, height: nat, maturity: U64): (n: nat)
    ensures n <= |pending|
    ensures forall i :: 0 <= i < n ==> DueAt(pending[i], height, maturity)
    ensures n < |pending| ==> !DueAt(pending[n], height, maturity)
  {
    if pending == [] || !DueAt(pending[0], height, maturity) then 0
    else 1 + DueCount(pending[1..], height, maturity)
  }

  function Notes(queue: seq<Queued>): (notes: seq<Bytes32>)
    ensures |notes| == |queue|
  {
    seq(|queue|, i requires 0 <= i < |queue| => queue[i].note)
  }

  function BundleCommitments(bundles: seq<Bundle>): seq<Bytes32> {
    if bundles == [] then [] else bundles[0].Commitments() + BundleCommitments(bundles[1..])
  }

  /** Every commitment a block appends, in consensus order. */
  function BlockCommitments(p: PoolState, bundles: seq<Bundle>, height: nat, maturity: U64): seq<Bytes32> {
    Notes(p.pending[..DueCount(p.pending, height, maturity)]) + BundleCommitments(bundles)
  }

  function Credited(t: Totals, credit: CoinbaseCredit): Result<Totals, TurnstileError> {
    var minted := if credit.subsidy > 0 then Minted(t, credit.pool, credit.subsidy) else Ok(t);
    if minted.Err? || credit.pool != Pool.Shielded || credit.fees == 0 then minted
    else if credit.fees >= TWO_63 then Err(NotRepresentable)
    else Crossed(minted.value, credit.fees)
  }

  function Appended(o: Crypto, tree: seq<Bytes32>, notes: seq<Bytes32>)
    : (r: Result<seq<Bytes32>, ShieldedStateError>)
    ensures r.Ok? ==> r.value == tree + notes
    ensures r.Ok? <==> (forall n :: n in notes ==> o.noteOk(n)) && (notes == [] || |tree| + |notes| <= TREE_CAPACITY)
    decreases |notes|
  {
    if notes == [] then Ok(tree)
    else if !o.noteOk(notes[0]) then Err(BadCommitment(notes[0]))
    else if |tree| >= TREE_CAPACITY then Err(TreeFull)
    else
      assert notes == [notes[0]] + notes[1..];
      Appended(o, tree + [notes[0]], notes[1..])
  }

  /** Nullifiers already spent, or repeated within the block, are refused in order. */
  function Banked(spent: set<Bytes32>, added: seq<Bytes32>, ns: seq<Bytes32>)
    : (r: Result<seq<Bytes32>, ShieldedStateError>)
    ensures r.Ok? ==> r.value == added + ns && forall n :: n in ns ==> n !in spent && n !in added
    decreases |ns|
  {
    if ns == [] then Ok(added)
    else if ns[0] in spent || ns[0] in added then Err(DuplicateNullifier(ns[0]))
    else
      assert ns == [ns[0]] + ns[1..];
      Banked(spent, added + [ns[0]], ns[1..])
  }

  datatype Scan = Scan(added: seq<Bytes32>, totals: Totals)

  function ScanBundle(p: PoolState, bundle: Bundle, acc: Scan): Result<Scan, ShieldedStateError> {
    if bundle.anchor !in p.anchors then Err(UnknownAnchor(bundle.anchor))
    else
      var banked := Banked(p.nullifiers, acc.added, bundle.Nullifiers());
      if banked.Err? then Err(banked.error)
      else if bundle.Cross().None? then Err(Turnstile(NotRepresentable))
      else
        var moved := Crossed(acc.totals, bundle.Cross().value);
        if moved.Err? then Err(Turnstile(moved.error)) else Ok(Scan(banked.value, moved.value))
  }

  function ScanBundles(p: PoolState, bundles: seq<Bundle>, acc: Scan): Result<Scan, ShieldedStateError>
    decreases |bundles|
  {
    if bundles == [] then Ok(acc)
    else
      var step := ScanBundle(p, bundles[0], acc);
      if step.Err? then step else ScanBundles(p, bundles[1..], step.value)
  }

  /** The last `ANCHOR_DEPTH` roots. */
  function Recent(anchors: seq<Bytes32>): seq<Bytes32> {
    if |anchors| > ANCHOR_DEPTH then anchors[|anchors| - ANCHOR_DEPTH..] else anchors
  }

  function QueuedNote(credit: CoinbaseCredit, height: nat): seq<Queued> {
    if credit.note.Some? then [Queued(height, credit.note.value)] else []
  }

  function Apply(o: Crypto, p: PoolState, bundles: seq<Bundle>, credit: CoinbaseCredit, height: nat, maturity: U64)
    : Result<Applied, ShieldedStateError>
  {
    var totals := Credited(p.totals, credit);
    if totals.Err? then Err(Turnstile(totals.error))
    else
      var due := DueCount(p.pending, height, maturity);
      var tree := Appended(o, p.tree, BlockCommitments(p, bundles, height, maturity));
      if tree.Err? then Err(tree.error)
      else
        var scan := ScanBundles(p, bundles, Scan([], totals.value));
        if scan.Err? then Err(scan.error)
        else
          Ok(Applied(
            PoolState(
              tree.value,
              p.nullifiers + SetOf(scan.value.added),
              Recent(p.anchors + [o.treeRoot(tree.value)]),
              scan.value.totals,
              p.pending[due..] + QueuedNote(credit, height)),
            ShieldedUndo(
              p.tree, p.totals, scan.value.added, p.anchors, credit.note.Some?, p.pending[..due])))
  }

  function Undone(p: PoolState, undo: ShieldedUndo): PoolState {
    var kept := if undo.coinbaseQueued && p.pending != [] then p.pending[..|p.pending| - 1] else p.pending;
    PoolState(
      undo.treeBefore,
      p.nullifiers - SetOf(undo.nullifiersAdded),
      undo.anchorsBefore,
      undo.totalsBefore,
      undo.coinbaseMatured + kept)
  }

  lemma ScanBundlesFresh(p: PoolState, bundles: seq<Bundle>, acc: Scan)
    requires forall n :: n in acc.added ==> n !in p.nullifiers
    requires ScanBundles(p, bundles, acc).Ok?
    ensures forall n :: n in ScanBundles(p, bundles, acc).value.added ==> n !in p.nullifiers
    decreases |bundles|
  {
    if bundles != [] {
      ScanBundlesFresh(p, bundles[1..], ScanBundle(p, bundles[0], acc).value);
    }
  }

  lemma AddThenRemove<T>(s: set<T>, xs: seq<T>)
    requires forall x :: x in xs ==> x !in s
    ensures s + SetOf(xs) - SetOf(xs) == s
  {
  }

  /** Undoing a block that applied gives back exactly the state it applied to. */
  lemma UndoInvertsApply(
    o: Crypto, p: PoolState, bundles: seq<Bundle>, credit: CoinbaseCredit, height: nat, maturity: U64)
    requires Apply(o, p, bundles, credit, height, maturity).Ok?
    ensures var applied := Apply(o, p, bundles, credit, height, maturity).value;
            Undone(applied.after, applied.undo) == p
  {
    var due := DueCount(p.pending, height, maturity);
    ScanBundlesFresh(p, bundles, Scan([], Credited(p.totals, credit).value));
    AddThenRemove(p.nullifiers, Apply(o, p, bundles, credit, height, maturity).value.undo.nullifiersAdded);
    var queue := p.pending[due..] + QueuedNote(credit, height);
    assert credit.note.Some? ==> queue[..|queue| - 1] == p.pending[due..];
    assert p.pending[..due] + p.pending[due..] == p.pending;
  }

  // --- the program ---------------------------------------------------------

  class ShieldedState {
    var tree: seq<Bytes32>
    var nullifiers: set<Bytes32>
    var anchors: seq<Bytes32>
    var totals: Totals
    var pending: seq<Queued>

    function View(): PoolState
      reads this
    {
      PoolState(tree, nullifiers, anchors, totals, pending)
    }

    constructor (o: Crypto)
      ensures View() == EmptyPool(o)
    {
      tree, nullifiers, anchors := [], {}, [o.treeRoot([])];
      totals, pending := Totals(0, 0), [];
    }

    constructor FromView(p: PoolState)
      ensures View() == p
    {
      tree, nullifiers, anchors, totals, pending := p.tree, p.nullifiers, p.anchors, p.totals, p.pending;
    }

    method CoinbaseDueAt(height: nat, maturity: U64) returns (due: seq<Queued>)
      ensures due == pending[..DueCount(pending, height, maturity)]
    {
      var n := 0;
      while n < |pending| && DueAt(pending[n], height, maturity)
        invariant 0 <= n <= |pending|
        invariant forall i :: 0 <= i < n ==> DueAt(pending[i], height, maturity)
      {
        n := n + 1;
      }
      return pending[..n];
    }

    method ListBlockCommitments(bundles: seq<Bundle>, height: nat, maturity: U64) returns (notes: seq<Bytes32>)
      ensures notes == BlockCommitments(View(), bundles, height, maturity)
    {
      var due := CoinbaseDueAt(height, maturity);
      notes := Notes(due);
      var i := 0;
      while i < |bundles|
        invariant 0 <= i <= |bundles|
        invariant BlockCommitments(View(), bundles, height, maturity) == notes + BundleCommitments(bundles[i..])
      {
        notes := notes + bundles[i].Commitments();
        i := i + 1;
      }
    }

    method Commit(o: Crypto, newTree: seq<Bytes32>, newTotals: Totals, added: seq<Bytes32>, matured: nat,
                  queued: seq<Queued>)
      requires matured <= |pending|
      modifies this
      ensures View() == PoolState(
                          newTree,
                          old(nullifiers) + SetOf(added),
                          Recent(old(anchors) + [o.treeRoot(newTree)]),
                          newTotals,
                          old(pending)[matured..] + queued)
    {
      tree := newTree;
      totals := newTotals;
      nullifiers := nullifiers + SetOf(added);
      pending := pending[matured..] + queued;
      anchors := anchors + [o.treeRoot(tree)];
      if |anchors| > ANCHOR_DEPTH {
        anchors := anchors[|anchors| - ANCHOR_DEPTH..];
      }
    }

    /** Mints the subsidy; fees paid into the shielded pool cross with it. */
    method CreditCoinbase(newTotals: PoolTotals, credit: CoinbaseCredit) returns (r: Result<(), TurnstileError>)
      modifies newTotals
      ensures match Credited(old(newTotals.Value()), credit)
              case Ok(t) => r == Ok(()) && newTotals.Value() == t
              case Err(e) => r == Err(e)
    {
      if credit.subsidy > 0 {
        r := newTotals.Mint(credit.pool, credit.subsidy);
        if r.Err? {
          return;
        }
      }
      if credit.pool == Pool.Shielded && credit.fees > 0 {
        if credit.fees >= TWO_63 {
          return Err(NotRepresentable);
        }
        r := newTotals.ApplyCross(credit.fees);
        return;
      }
      return Ok(());
    }

    method GrowTree(o: Crypto, notes: seq<Bytes32>) returns (r: Result<seq<Bytes32>, ShieldedStateError>)
      ensures r == Appended(o, tree, notes)
    {
      var newTree := tree;
      var i := 0;
      while i < |notes|
        invariant 0 <= i <= |notes|
        invariant Appended(o, tree, notes) == Appended(o, newTree, notes[i..])
      {
        if !o.noteOk(notes[i]) {
          return Err(BadCommitment(notes[i]));
        }
        if |newTree| >= TREE_CAPACITY {
          return Err(TreeFull);
        }
        newTree := newTree + [notes[i]];
        i := i + 1;
      }
      return Ok(newTree);
    }

    method BankNullifiers(added: seq<Bytes32>, ns: seq<Bytes32>)
      returns (r: Result<seq<Bytes32>, ShieldedStateError>)
      ensures r == Banked(nullifiers, added, ns)
    {
      var seen := added;
      var j := 0;
      while j < |ns|
        invariant 0 <= j <= |ns|
        invariant Banked(nullifiers, added, ns) == Banked(nullifiers, seen, ns[j..])
      {
        if ns[j] in nullifiers || ns[j] in seen {
          return Err(DuplicateNullifier(ns[j]));
        }
        seen := seen + [ns[j]];
        j := j + 1;
      }
      return Ok(seen);
    }

    /** Anchors, nullifiers and crossings of every bundle, against the state before the block. */
    method ScanAll(bundles: seq<Bundle>, newTotals: PoolTotals)
      returns (r: Result<seq<Bytes32>, ShieldedStateError>)
      modifies newTotals
      ensures match ScanBundles(View(), bundles, Scan([], old(newTotals.Value())))
              case Ok(scan) => r == Ok(scan.added) && newTotals.Value() == scan.totals
              case Err(e) => r == Err(e)
    {
      var added: seq<Bytes32> := [];
      var k := 0;
      ghost var start := Scan([], newTotals.Value());
      while k < |bundles|
        invariant 0 <= k <= |bundles|
        invariant ScanBundles(View(), bundles, start) ==
                  ScanBundles(View(), bundles[k..], Scan(added, newTotals.Value()))
      {
        var bundle := bundles[k];
        if bundle.anchor !in anchors {
          return Err(UnknownAnchor(bundle.anchor));
        }
        var banked := BankNullifiers(added, bundle.Nullifiers());
        if banked.Err? {
          return Err(banked.error);
        }
        if bundle.Cross().None? {
          return Err(Turnstile(NotRepresentable));
        }
        var moved := newTotals.ApplyCross(bundle.Cross().value);
        if moved.Err? {
          return Err(Turnstile(moved.error));
        }
        added := banked.value;
        k := k + 1;
      }
      return Ok(added);
    }

    /** Everything is checked on copies; the fields change only once every check has passed. */
    method ApplyBlock(o: Crypto, bundles: seq<Bundle>, credit: CoinbaseCredit, height: nat, maturity: U64)
      returns (r: Result<ShieldedUndo, ShieldedStateError>)
      modifies this
      ensures match Apply(o, old(View()), bundles, credit, height, maturity)
              case Ok(applied) => r == Ok(applied.undo) && View() == applied.after
              case Err(e) => r == Err(e) && View() == old(View())
    {
      var newTotals := new PoolTotals(totals);
      var credited := CreditCoinbase(newTotals, credit);
      if credited.Err? {
        return Err(Turnstile(credited.error));
      }
      var matured := CoinbaseDueAt(height, maturity);
      var notes := ListBlockCommitments(bundles, height, maturity);
      var newTree := GrowTree(o, notes);
      if newTree.Err? {
        return Err(newTree.error);
      }
      var added := ScanAll(bundles, newTotals);
      if added.Err? {
        return Err(added.error);
      }

      var undo := ShieldedUndo(tree, totals, added.value, anchors, credit.note.Some?, matured);
      Commit(o, newTree.value, newTotals.Value(), added.value, |matured|, QueuedNote(credit, height));
      return Ok(undo);
    }

    method UndoBlock(undo: ShieldedUndo)
      modifies this
      ensures View() == Undone(old(View()), undo)
    {
      tree := undo.treeBefore;
      totals := undo.totalsBefore;
      nullifiers := nullifiers - SetOf(undo.nullifiersAdded);
      if undo.coinbaseQueued && pending != [] {
        pending := pending[..|pending| - 1];
      }
      var i := |undo.coinbaseMatured|;
      ghost var kept := pending;
      while i > 0
        invariant 0 <= i <= |undo.coinbaseMatured|
        invariant pending == undo.coinbaseMatured[i..] + kept
        invariant tree == undo.treeBefore && totals == undo.totalsBefore
        invariant nullifiers == old(nullifiers) - SetOf(undo.nullifiersAdded)
      {
        i := i - 1;
        pending := [undo.coinbaseMatured[i]] + pending;
      }
      anchors := undo.anchorsBefore;
    }
  }
}
