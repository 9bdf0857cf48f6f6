/**
 Decoy selection over the chain's output set (the `OutputSet` trait of
 noct/core/src/chain.rs): binary search on a rising height column, and rings the
 validator accepts. Random draws arrive as a tape; the gamma sample is any age.
 */
module RingSelection {
  import opened Types
  import opened Data
  import opened Ledgers

  datatype OutputSet = OutputSet(members: seq<RingMember>, meta: seq<OutputMeta>, tip: U64, maturity: U64)
  {
    predicate Aligned() {
      |members| == |meta|
    }

    /** May the output be referenced by a transaction at the tip? */
    predicate Spendable(i: nat) {
      i < |meta| && (meta[i].coinbase ==> tip >= SaturatingAdd(meta[i].height, maturity))
    }

    function SpendableSet(): set<nat> {
      set i: nat | i < |meta| && Spendable(i)
    }

    function Cutoff(): nat {
      SaturatingSub(tip, maturity)
    }
  }

  /** Outputs are appended in block order. */
  predicate HeightsRise(meta: seq<OutputMeta>) {
    forall i, j :: 0 <= i < j < |meta| ==> meta[i].height <= meta[j].height
  }

  /** A test that holds up to some height and not above it. */
  ghost predicate HoldsBelow(test: U64 -> bool) {
    forall a: U64, b: U64 :: a <= b && test(b) ==> test(a)
  }

  /** `lo` splits the outputs into those that pass and those that do not. */
  predicate Splits(meta: seq<OutputMeta>, test: U64 -> bool, lo: nat) {
    && lo <= |meta|
    && (forall i :: 0 <= i < lo ==> test(meta[i].height))
    && (forall i :: lo <= i < |meta| ==> !test(meta[i].height))
  }

  method PartitionPointByHeight(meta: seq<OutputMeta>, test: U64 -> bool) returns (lo: nat)
    ensures lo <= |meta|
    ensures HeightsRise(meta) && HoldsBelow(test) ==> Splits(meta, test, lo)
  {
    var hi := |meta|;
    lo := 0;
    while lo < hi
      invariant lo <= hi <= |meta|
      invariant HeightsRise(meta) && HoldsBelow(test) ==> forall i :: 0 <= i < lo ==> test(meta[i].height)
      invariant HeightsRise(meta) && HoldsBelow(test) ==> forall i :: hi <= i < |meta| ==> !test(meta[i].height)
    {
      var mid := lo + (hi - lo) / 2;
      if test(meta[mid].height) {
        if HeightsRise(meta) && HoldsBelow(test) {
          assert forall i :: 0 <= i <= mid ==> meta[i].height <= meta[mid].height;
        }
        lo := mid + 1;
      } else {
        if HeightsRise(meta) && HoldsBelow(test) {
          assert forall i :: mid <= i < |meta| ==> meta[mid].height <= meta[i].height;
        }
        hi := mid;
      }
    }
  }

  // --- recency-biased picks ------------------------------------------------

  /** The pick lands in the first block at or after the target that has outputs, or on the last output. */
  predicate LandsOn(meta: seq<OutputMeta>, target: nat, i: nat) {
    && i < |meta|
    && (if meta[i].height >= target then
          forall j :: 0 <= j < |meta| && meta[j].height >= target ==> meta[i].height <= meta[j].height
        else
          i == |meta| - 1)
  }

  /** The outputs of this height are those from lo to hi. */
  predicate Spans(meta: seq<OutputMeta>, height: nat, lo: nat, hi: nat) {
    lo < hi <= |meta| && forall j :: 0 <= j < |meta| ==> (meta[j].height == height <==> lo <= j < hi)
  }

  /** Of the outputs of its block, the pick is the one the draw counts to, starting over at the end. */
  ghost predicate CountedTo(meta: seq<OutputMeta>, draw: U64, i: nat) {
    i < |meta| && exists lo: nat, hi: nat :: Spans(meta, meta[i].height, lo, hi) && i == lo + draw % (hi - lo)
  }

  /** Everything between the two splits shares the height of the first. */
  lemma SameBlock(meta: seq<OutputMeta>, target: nat, lo: nat, hi: nat)
    requires lo < hi <= |meta|
    ensures HeightsRise(meta) && Splits(meta, h => h < target, lo) && Splits(meta, h => h <= meta[lo].height, hi) ==>
              Spans(meta, meta[lo].height, lo, hi)
  {
  }

  method RecencyPick(outs: OutputSet, age: nat, draw: U64) returns (i: nat)
    requires |outs.meta| > 0
    ensures i < |outs.meta|
    ensures age >= outs.tip ==> i == draw % |outs.meta|
    ensures HeightsRise(outs.meta) && age < outs.tip ==> LandsOn(outs.meta, outs.tip - age, i)
    ensures HeightsRise(outs.meta) && age < outs.tip && outs.meta[i].height >= outs.tip - age ==>
              CountedTo(outs.meta, draw, i)
  {
    var n := |outs.meta|;
    if age >= outs.tip {
      return draw % n;
    }
    var target := outs.tip - age;
    var lo := PartitionPointByHeight(outs.meta, h => h < target);
    if lo >= n {
      return n - 1;
    }
    var loHeight := outs.meta[lo].height;
    var hi := PartitionPointByHeight(outs.meta, h => h <= loHeight);
    if HeightsRise(outs.meta) {
      assert lo < hi;
      SameBlock(outs.meta, target, lo, hi);
    }
    if hi > lo + 1 {
      i := lo + draw % (hi - lo);
    } else {
      i := lo;
    }
  }

  // --- which outputs are eligible ------------------------------------------

  /** Indices from `from` on that are not coinbase outputs. */
  function Recent(meta: seq<OutputMeta>, from: nat): (r: seq<nat>)
    decreases |meta| - from
  {
    if from >= |meta| then []
    else if meta[from].coinbase then Recent(meta, from + 1)
    else [from] + Recent(meta, from + 1)
  }

  lemma {:induction false} RecentHas(meta: seq<OutputMeta>, from: nat)
    ensures forall i :: i in Recent(meta, from) <==> from <= i < |meta| && !meta[i].coinbase
    ensures forall j, k :: 0 <= j < k < |Recent(meta, from)| ==> Recent(meta, from)[j] < Recent(meta, from)[k]
    decreases |meta| - from
  {
    if from < |meta| {
      RecentHas(meta, from + 1);
      if !meta[from].coinbase {
        var rest := Recent(meta, from + 1);
        assert Recent(meta, from) == [from] + rest;
        assert forall k :: 0 <= k < |rest| ==> rest[k] in rest;
      }
    }
  }

  /** How many outputs stand before the first one above the cutoff. */
  function MaturePrefix(meta: seq<OutputMeta>, cutoff: nat): (n: nat)
    ensures n <= |meta|
    ensures forall i :: 0 <= i < n ==> meta[i].height <= cutoff
    ensures n < |meta| ==> meta[n].height > cutoff
  {
    if meta == [] then 0
    else
      var last := |meta| - 1;
      var n := MaturePrefix(meta[..last], cutoff);
      if n == last && meta[last].height <= cutoff then |meta| else n
  }

  /** How top-up draws address the eligible outputs: the mature prefix, then the suffix. */
  function Addressed(boundary: nat, recent: seq<nat>, k: nat): nat
    requires k < boundary + |recent|
  {
    if k < boundary then k else recent[k - boundary]
  }

  /** The outputs at or below the maturity cutoff: on rising heights, a prefix. */
  function Boundary(outs: OutputSet): (b: nat)
    ensures b <= |outs.meta|
  {
    MaturePrefix(outs.meta, outs.Cutoff())
  }

  lemma BoundarySplits(outs: OutputSet)
    requires HeightsRise(outs.meta)
    ensures Splits(outs.meta, h => h <= outs.Cutoff(), Boundary(outs))
  {
  }

  predicate AtMost(meta: seq<OutputMeta>, cutoff: nat, i: nat) {
    i < |meta| && meta[i].height <= cutoff
  }

  lemma SplitIsBoundary(outs: OutputSet, b: nat)
    requires b <= |outs.meta|
    requires forall i :: 0 <= i < b ==> outs.meta[i].height <= outs.Cutoff()
    requires forall i :: b <= i < |outs.meta| ==> outs.meta[i].height > outs.Cutoff()
    ensures b == Boundary(outs)
  {
    assert !AtMost(outs.meta, outs.Cutoff(), b) && !AtMost(outs.meta, outs.Cutoff(), Boundary(outs));
  }

  function RecentOf(outs: OutputSet): seq<nat> {
    Recent(outs.meta, Boundary(outs))
  }

  /** The number of outputs the program takes for spendable. */
  function Count(outs: OutputSet): nat {
    Boundary(outs) + |RecentOf(outs)|
  }

  /** A chain old enough for its maturity rule to have let something through. */
  predicate Grown(outs: OutputSet) {
    outs.maturity <= outs.tip < U64_MAX
  }

  lemma SuffixIsImmature(outs: OutputSet, i: nat)
    requires Grown(outs) && HeightsRise(outs.meta) && i < |outs.meta|
    ensures outs.Spendable(i) <==> i < Boundary(outs) || !outs.meta[i].coinbase
  {
    BoundarySplits(outs);
  }

  /** The numbers below n. */
  function Below(n: nat): (r: set<nat>)
    ensures forall i: nat :: i in r <==> i < n
    ensures |r| == n
  {
    if n == 0 then {} else Below(n - 1) + {n - 1}
  }

  lemma {:induction false} AscendingSize(xs: seq<nat>)
    requires forall j, k :: 0 <= j < k < |xs| ==> xs[j] < xs[k]
    ensures |SetOf(xs)| == |xs|
  {
    if xs != [] {
      AscendingSize(xs[1..]);
      assert xs == [xs[0]] + xs[1..];
      assert SetOf(xs) == {xs[0]} + SetOf(xs[1..]);
      assert xs[0] !in SetOf(xs[1..]);
    }
  }

  /** The outputs the program takes for spendable: the mature prefix and the others of the suffix. */
  lemma CountedSet(outs: OutputSet)
    ensures |Below(Boundary(outs)) + SetOf(RecentOf(outs))| == Count(outs)
  {
    var recent := RecentOf(outs);
    RecentHas(outs.meta, Boundary(outs));
    AscendingSize(recent);
    assert Below(Boundary(outs)) !! SetOf(recent);
  }

  /** The count the program compares with the ring size is the number of spendable outputs. */
  lemma CountIsSpendable(outs: OutputSet)
    requires Grown(outs) && HeightsRise(outs.meta)
    ensures Count(outs) == |outs.SpendableSet()|
  {
    var recent := RecentOf(outs);
    RecentHas(outs.meta, Boundary(outs));
    CountedSet(outs);
    forall i: nat
      ensures i in outs.SpendableSet() <==> i in Below(Boundary(outs)) + SetOf(recent)
    {
      if i < |outs.meta| {
        SuffixIsImmature(outs, i);
      }
    }
    assert outs.SpendableSet() == Below(Boundary(outs)) + SetOf(recent);
  }

  // --- assembling a ring: specification ------------------------------------

  /** A finished ring, the program's `None`, or a tape too short to finish. */
  datatype Assembled = Ring(members: seq<RingMember>, signer: nat) | Refused | OutOfDraws

  /** The random draws: picked indices, numbers for top-ups, and one for the signer's place. */
  datatype Tape = Tape(picks: seq<nat>, tops: seq<U64>, signer: U64)

  /** The set's elements below n in ascending order. */
  function Ascending(s: set<nat>, n: nat): seq<nat> {
    if n == 0 then [] else Ascending(s, n - 1) + if n - 1 in s then [n - 1] else []
  }

  lemma {:induction false} AscendingIsTheSet(s: set<nat>, n: nat)
    ensures forall i :: i in Ascending(s, n) <==> i in s && i < n
    ensures forall j, k :: 0 <= j < k < |Ascending(s, n)| ==> Ascending(s, n)[j] < Ascending(s, n)[k]
  {
    if n > 0 {
      AscendingIsTheSet(s, n - 1);
      var below := Ascending(s, n - 1);
      assert forall j :: 0 <= j < |below| ==> below[j] in below;
    }
  }

  lemma AscendingCount(s: set<nat>, n: nat)
    requires forall i :: i in s ==> i < n
    ensures |Ascending(s, n)| == |s|
  {
    AscendingIsTheSet(s, n);
    AscendingSize(Ascending(s, n));
    assert SetOf(Ascending(s, n)) == s;
  }

  /** Any output the draws may let in besides the real one. */
  predicate Eligible(outs: OutputSet, i: nat) {
    i < |outs.meta| && (outs.Spendable(i) || i < Boundary(outs))
  }

  /** What a tape of picks offers: its spendable outputs, before top-ups set in. */
  function Offered(outs: OutputSet, size: nat, picks: seq<nat>): set<nat> {
    set i | i in picks[..Min(|picks|, size * 100)] && outs.Spendable(i)
  }

  lemma SubsetIsSmaller(a: set<nat>, b: set<nat>)
    requires a <= b
    ensures |a| <= |b|
  {
    assert b == a + (b - a);
  }

  /** The output a top-up draw names. */
  function TopUp(outs: OutputSet, draw: U64): nat
    requires Count(outs) > 0
  {
    Addressed(Boundary(outs), RecentOf(outs), draw % Count(outs))
  }

  lemma TopUpIsEligible(outs: OutputSet, draw: U64)
    requires Count(outs) > 0
    ensures Eligible(outs, TopUp(outs, draw))
  {
    RecentHas(outs.meta, Boundary(outs));
    var k := draw % Count(outs);
    assert k >= Boundary(outs) ==> RecentOf(outs)[k - Boundary(outs)] in RecentOf(outs);
  }

  lemma SmallModulus(k: nat, n: nat)
    requires k < n
    ensures k % n == k
  {
  }

  lemma TopUpBelowCount(outs: OutputSet, k: U64)
    requires k < Count(outs)
    ensures TopUp(outs, k) == Addressed(Boundary(outs), RecentOf(outs), k)
  {
    SmallModulus(k, Count(outs));
  }

  /** The round's pick, if it may be used. */
  function Round(outs: OutputSet, tape: Tape, chosen: set<nat>, attempts: nat): set<nat>
    requires attempts < |tape.picks|
  {
    if outs.Spendable(tape.picks[attempts]) then chosen + {tape.picks[attempts]} else chosen
  }

  /**
   The distinct indices the draws end with. Past `100 * size` attempts every round also
   tops up, even the round whose pick completed the set, so there may be one index more
   than asked for; a tape that ends early leaves fewer.
   */
  function Drawn(outs: OutputSet, size: nat, tape: Tape, chosen: set<nat>, attempts: nat, t: nat): set<nat>
    requires Count(outs) > 0 && t <= |tape.tops|
    decreases |tape.picks| - attempts
  {
    if |chosen| >= size || attempts >= |tape.picks| then chosen
    else
      var more := Round(outs, tape, chosen, attempts);
      if attempts + 1 <= size * 100 then Drawn(outs, size, tape, more, attempts + 1, t)
      else if t == |tape.tops| then more
      else Drawn(outs, size, tape, more + {TopUp(outs, tape.tops[t])}, attempts + 1, t + 1)
  }

  /** Draws only add, and only what is eligible. */
  lemma {:induction false} DrawnAdds(
    outs: OutputSet, size: nat, tape: Tape, chosen: set<nat>, attempts: nat, t: nat)
    requires Count(outs) > 0 && t <= |tape.tops|
    ensures chosen <= Drawn(outs, size, tape, chosen, attempts, t)
    ensures forall i :: i in Drawn(outs, size, tape, chosen, attempts, t) ==> i in chosen || Eligible(outs, i)
    decreases |tape.picks| - attempts
  {
    if |chosen| < size && attempts < |tape.picks| {
      var more := Round(outs, tape, chosen, attempts);
      if attempts + 1 <= size * 100 {
        DrawnAdds(outs, size, tape, more, attempts + 1, t);
      } else if t < |tape.tops| {
        TopUpIsEligible(outs, tape.tops[t]);
        DrawnAdds(outs, size, tape, more + {TopUp(outs, tape.tops[t])}, attempts + 1, t + 1);
      }
    }
  }

  /** One round, before top-ups set in and after. */
  lemma {:induction false} DrawnUnfolds(
    outs: OutputSet, size: nat, tape: Tape, chosen: set<nat>, attempts: nat, t: nat)
    requires Count(outs) > 0 && t <= |tape.tops| && |chosen| < size && attempts < |tape.picks|
    ensures var more := Round(outs, tape, chosen, attempts);
            Drawn(outs, size, tape, chosen, attempts, t) ==
            if attempts + 1 <= size * 100 then Drawn(outs, size, tape, more, attempts + 1, t)
            else if t == |tape.tops| then more
            else Drawn(outs, size, tape, more + {TopUp(outs, tape.tops[t])}, attempts + 1, t + 1)
  {
  }

  lemma {:induction false} DrawnStops(
    outs: OutputSet, size: nat, tape: Tape, chosen: set<nat>, attempts: nat, t: nat)
    requires Count(outs) > 0 && t <= |tape.tops| && (|chosen| >= size || attempts >= |tape.picks|)
    ensures Drawn(outs, size, tape, chosen, attempts, t) == chosen
  {
  }

  lemma {:induction false} TooFewChosen(
    outs: OutputSet, size: nat, tape: Tape, chosen: set<nat>, attempts: nat)
    requires Count(outs) > 0 && |Drawn(outs, size, tape, chosen, attempts, 0)| < size
    ensures |chosen| < size
  {
  }

  /** A tape that leaves too few has had all its spendable picks taken. */
  lemma {:induction false} OfferedIsDrawn(
    outs: OutputSet, size: nat, tape: Tape, chosen: set<nat>, attempts: nat, j: nat)
    requires Count(outs) > 0
    requires |Drawn(outs, size, tape, chosen, attempts, 0)| < size
    requires attempts <= j < Min(|tape.picks|, size * 100) && outs.Spendable(tape.picks[j])
    ensures tape.picks[j] in Drawn(outs, size, tape, chosen, attempts, 0)
    decreases j - attempts
  {
    TooFewChosen(outs, size, tape, chosen, attempts);
    DrawnUnfolds(outs, size, tape, chosen, attempts, 0);
    var more := Round(outs, tape, chosen, attempts);
    DrawnAdds(outs, size, tape, more, attempts + 1, 0);
    if attempts < j {
      OfferedIsDrawn(outs, size, tape, more, attempts + 1, j);
    }
  }

  /** What the program asks for before it draws. */
  predicate Enough(outs: OutputSet, size: nat, own: nat) {
    0 < size <= |outs.members| && own < |outs.members| && size <= Count(outs)
  }

  function Chosen(outs: OutputSet, size: nat, own: nat, tape: Tape): set<nat>
    requires outs.Aligned() && Enough(outs, size, own)
  {
    Drawn(outs, size, tape, {own}, 0, 0)
  }

  lemma ChosenAreEligible(outs: OutputSet, size: nat, own: nat, tape: Tape)
    requires outs.Aligned() && Enough(outs, size, own)
    ensures own in Chosen(outs, size, own, tape)
    ensures forall i :: i in Chosen(outs, size, own, tape) ==> i == own || Eligible(outs, i)
  {
    DrawnAdds(outs, size, tape, {own}, 0, 0);
  }

  lemma {:induction false} OfferedIsChosen(outs: OutputSet, size: nat, own: nat, tape: Tape)
    requires outs.Aligned() && Enough(outs, size, own) && |Chosen(outs, size, own, tape)| < size
    ensures Offered(outs, size, tape.picks) <= Chosen(outs, size, own, tape)
  {
    forall i | i in Offered(outs, size, tape.picks)
      ensures i in Chosen(outs, size, own, tape)
    {
      var j: nat :| j < Min(|tape.picks|, size * 100) && tape.picks[j] == i;
      OfferedIsDrawn(outs, size, tape, {own}, 0, j);
    }
  }

  /** The indices behind a ring: decoys in ascending order, the real one put in at the signer's place. */
  function Positions(decoys: seq<nat>, own: nat, signer: nat, size: nat): (r: seq<nat>)
    requires signer < size <= |decoys| + 1
    ensures |r| == size && forall i :: 0 <= i < size ==> r[i] == own || r[i] in decoys
  {
    decoys[..signer] + [own] + decoys[signer..size - 1]
  }

  lemma PositionsDiffer(decoys: seq<nat>, own: nat, signer: nat, size: nat)
    requires signer < size <= |decoys| + 1 && own !in decoys
    requires forall j, k :: 0 <= j < k < |decoys| ==> decoys[j] < decoys[k]
    ensures var r := Positions(decoys, own, signer, size);
            && r[signer] == own
            && (forall i, j :: 0 <= i < j < size ==> r[i] != r[j])
            && (forall i, j :: 0 <= i < j < size && i != signer && j != signer ==> r[i] < r[j])
            && (forall i :: 0 <= i < size && i != signer ==> r[i] in decoys)
  {
    var r := Positions(decoys, own, signer, size);
    forall i | 0 <= i < size && i != signer
      ensures r[i] == if i < signer then decoys[i] else decoys[i - 1]
    {
    }
  }

  function Decoys(chosen: set<nat>, own: nat, n: nat): (decoys: seq<nat>)
    requires own in chosen && forall i :: i in chosen ==> i < n
    ensures |decoys| == |chosen| - 1
    ensures forall i :: i in decoys <==> i in chosen && i != own
  {
    AscendingIsTheSet(chosen - {own}, n);
    AscendingCount(chosen - {own}, n);
    Ascending(chosen - {own}, n)
  }

  /** Where the real output goes. */
  function SignerPlace(draw: U64, size: nat): (signer: nat)
    requires size > 0
    ensures signer < size
  {
    draw % size
  }

  function DecoysOf(outs: OutputSet, size: nat, own: nat, tape: Tape): (decoys: seq<nat>)
    requires outs.Aligned() && Enough(outs, size, own)
    ensures |decoys| == |Chosen(outs, size, own, tape)| - 1
    ensures forall i :: i in decoys ==> i < |outs.members| && i != own && Eligible(outs, i)
  {
    ChosenAreEligible(outs, size, own, tape);
    Decoys(Chosen(outs, size, own, tape), own, |outs.members|)
  }

  lemma DecoysAscend(outs: OutputSet, size: nat, own: nat, tape: Tape)
    requires outs.Aligned() && Enough(outs, size, own)
    ensures var decoys := DecoysOf(outs, size, own, tape);
            forall j, k :: 0 <= j < k < |decoys| ==> decoys[j] < decoys[k]
  {
    ChosenAreEligible(outs, size, own, tape);
    AscendingIsTheSet(Chosen(outs, size, own, tape) - {own}, |outs.members|);
  }

  function Indices(outs: OutputSet, size: nat, own: nat, tape: Tape): (indices: seq<nat>)
    requires outs.Aligned() && Enough(outs, size, own) && |Chosen(outs, size, own, tape)| >= size
    ensures |indices| == size && forall i :: 0 <= i < size ==> indices[i] < |outs.members|
  {
    Positions(DecoysOf(outs, size, own, tape), own, SignerPlace(tape.signer, size), size)
  }

  /** Distinct outputs, the real one where the signer is, every other one eligible. */
  lemma {:induction false} IndicesDiffer(outs: OutputSet, size: nat, own: nat, tape: Tape)
    requires outs.Aligned() && Enough(outs, size, own) && |Chosen(outs, size, own, tape)| >= size
    ensures var indices, signer := Indices(outs, size, own, tape), SignerPlace(tape.signer, size);
            && indices[signer] == own
            && (forall i, j :: 0 <= i < j < size ==> indices[i] != indices[j])
            && (forall i, j :: 0 <= i < j < size && i != signer && j != signer ==> indices[i] < indices[j])
            && (forall i :: 0 <= i < size && i != signer ==> indices[i] != own && Eligible(outs, indices[i]))
  {
    DecoysAscend(outs, size, own, tape);
    PositionsDiffer(DecoysOf(outs, size, own, tape), own, SignerPlace(tape.signer, size), size);
  }

  function MembersAt(outs: OutputSet, indices: seq<nat>): (members: seq<RingMember>)
    requires forall i :: 0 <= i < |indices| ==> indices[i] < |outs.members|
    ensures |members| == |indices|
    ensures forall i :: 0 <= i < |indices| ==> members[i] == outs.members[indices[i]]
  {
    seq(|indices|, i requires 0 <= i < |indices| => outs.members[indices[i]])
  }

  /** `assemble_ring` on a given tape. */
  function Assemble(outs: OutputSet, size: nat, own: nat, tape: Tape): Assembled
    requires outs.Aligned()
  {
    if !Enough(outs, size, own) then Refused
    else if |Chosen(outs, size, own, tape)| < size then OutOfDraws
    else Ring(MembersAt(outs, Indices(outs, size, own, tape)), SignerPlace(tape.signer, size))
  }

  // --- decoys that may not be spent ----------------------------------------

  /** The tape yields a ring with a decoy the validator refuses. */
  ghost predicate HoldsUnspendable(outs: OutputSet, size: nat, own: nat, tape: Tape)
    requires outs.Aligned()
  {
    && Assemble(outs, size, own, tape).Ring?
    && exists i :: 0 <= i < size && i != SignerPlace(tape.signer, size)
        && !outs.Spendable(Indices(outs, size, own, tape)[i])
  }

  /** Picks name outputs of the set. */
  predicate InSet(outs: OutputSet, tape: Tape) {
    forall i :: 0 <= i < |tape.picks| ==> tape.picks[i] < |outs.members|
  }

  /** An output the program takes for mature, which is a coinbase and not the one spent. */
  predicate OtherOldCoinbase(outs: OutputSet, own: nat, c: nat) {
    c < Boundary(outs) && c != own && outs.meta[c].coinbase
  }

  /** Below the maturity the cutoff is zero, and no coinbase may be spent; from it on, all up to the cutoff may. */
  lemma OldCoinbase(outs: OutputSet, c: nat)
    requires c < Boundary(outs) && outs.meta[c].coinbase
    ensures outs.Spendable(c) <==> outs.maturity <= outs.tip
  {
  }

  /** Picks of the real output itself add nothing until top-ups set in. */
  lemma {:induction false} IdlePicks(
    outs: OutputSet, size: nat, own: nat, tape: Tape, chosen: set<nat>, attempts: nat)
    requires Count(outs) > 0 && own in chosen && |chosen| < size && attempts <= size * 100 <= |tape.picks|
    requires forall i :: 0 <= i < |tape.picks| ==> tape.picks[i] == own
    ensures Drawn(outs, size, tape, chosen, attempts, 0) == Drawn(outs, size, tape, chosen, size * 100, 0)
    decreases size * 100 - attempts
  {
    if attempts < size * 100 {
      assert chosen + {own} == chosen;
      IdlePicks(outs, size, own, tape, chosen, attempts + 1);
    }
  }

  /** The outputs a list of top-up draws names. */
  function Named(outs: OutputSet, tops: seq<U64>): (r: set<nat>)
    requires Count(outs) > 0
    ensures forall t :: 0 <= t < |tops| ==> TopUp(outs, tops[t]) in r
  {
    if tops == [] then {} else {TopUp(outs, tops[0])} + Named(outs, tops[1..])
  }

  /** Idle picks with enough top-ups end with exactly the number asked for. */
  lemma {:induction false} TopUpsFill(outs: OutputSet, size: nat, own: nat, tape: Tape, chosen: set<nat>, t: nat)
    requires Count(outs) > 0 && own in chosen && |chosen| <= size && t <= |tape.tops|
    requires |tape.picks| == size * 100 + |tape.tops|
    requires forall i :: 0 <= i < |tape.picks| ==> tape.picks[i] == own
    requires |chosen + Named(outs, tape.tops[t..])| >= size
    ensures |Drawn(outs, size, tape, chosen, size * 100 + t, t)| == size
    decreases |tape.tops| - t
  {
    if t == |tape.tops| {
      assert chosen + Named(outs, tape.tops[t..]) == chosen;
    } else if |chosen| < size {
      assert chosen + {own} == chosen;
      var more := chosen + {TopUp(outs, tape.tops[t])};
      assert tape.tops[t..][1..] == tape.tops[t + 1..];
      assert chosen + Named(outs, tape.tops[t..]) == more + Named(outs, tape.tops[t + 1..]);
      TopUpsFill(outs, size, own, tape, more, t + 1);
    }
  }

  /** The tape that never offers a decoy and tops up with c first, then with everything in turn. */
  function BadTape(outs: OutputSet, size: nat, own: nat, c: nat): Tape
    requires c <= Count(outs) <= U64_MAX
  {
    var tops := [c] + seq(Count(outs), k requires 0 <= k < Count(outs) => k);
    Tape(seq(size * 100 + |tops|, _ => own), tops, 0)
  }

  lemma PlaceInRecent(outs: OutputSet, tops: seq<U64>, i: nat)
    requires 0 < Count(outs) <= |tops| && forall k :: 0 <= k < Count(outs) ==> tops[k] == k
    requires i in RecentOf(outs)
    ensures i in Named(outs, tops)
  {
    var j :| 0 <= j < |RecentOf(outs)| && RecentOf(outs)[j] == i;
    var k := Boundary(outs) + j;
    assert tops[k] == k;
    TopUpBelowCount(outs, k);
  }

  lemma EverythingIsNamed(outs: OutputSet, tops: seq<U64>)
    requires 0 < Count(outs) <= |tops| && forall k :: 0 <= k < Count(outs) ==> tops[k] == k
    ensures |Named(outs, tops)| >= Count(outs)
  {
    var prefix, recent := Below(Boundary(outs)), SetOf(RecentOf(outs));
    forall i | i in prefix + recent
      ensures i in Named(outs, tops)
    {
      if i in prefix {
        assert tops[i] == i;
        TopUpBelowCount(outs, i);
      } else {
        PlaceInRecent(outs, tops, i);
      }
    }
    CountedSet(outs);
    SubsetIsSmaller(prefix + recent, Named(outs, tops));
  }

  lemma FirstTopUp(outs: OutputSet, size: nat, own: nat, tape: Tape, c: nat)
    requires 2 <= size && c < Boundary(outs) && c < TWO_64
    requires |tape.picks| > size * 100 && tape.picks[size * 100] == own
    requires tape.tops != [] && tape.tops[0] == c
    ensures Drawn(outs, size, tape, {own}, size * 100, 0) == Drawn(outs, size, tape, {own} + {c}, size * 100 + 1, 1)
  {
    TopUpBelowCount(outs, c);
    assert {own} + {own} == {own};
  }

  /** Nothing but the real output is offered; top-ups name c first, then everything in turn. */
  predicate IsBad(outs: OutputSet, size: nat, own: nat, c: nat, tape: Tape) {
    && |tape.picks| == size * 100 + |tape.tops|
    && (forall i :: 0 <= i < |tape.picks| ==> tape.picks[i] == own)
    && |tape.tops| == Count(outs) + 1 && tape.tops[0] == c
    && (forall k :: 0 <= k < Count(outs) ==> tape.tops[1..][k] == k)
  }

  lemma {:induction false} BadTapeStarts(outs: OutputSet, size: nat, own: nat, c: nat, tape: Tape)
    requires outs.Aligned() && Enough(outs, size, own) && 2 <= size
    requires OtherOldCoinbase(outs, own, c) && IsBad(outs, size, own, c, tape)
    ensures Chosen(outs, size, own, tape) == Drawn(outs, size, tape, {own} + {c}, size * 100 + 1, 1)
  {
    IdlePicks(outs, size, own, tape, {own}, 0);
    FirstTopUp(outs, size, own, tape, c);
  }

  lemma {:induction false} BadTapeSuffices(outs: OutputSet, size: nat, own: nat, c: nat, tape: Tape)
    requires Count(outs) > 0 && size <= Count(outs) && IsBad(outs, size, own, c, tape)
    ensures |{own} + {c} + Named(outs, tape.tops[1..])| >= size
  {
    var named := Named(outs, tape.tops[1..]);
    EverythingIsNamed(outs, tape.tops[1..]);
    SubsetIsSmaller(named, {own} + {c} + named);
  }

  lemma {:induction false} BadTapeFills(outs: OutputSet, size: nat, own: nat, c: nat, tape: Tape)
    requires Count(outs) > 0 && 2 <= size <= Count(outs) && IsBad(outs, size, own, c, tape) && c != own
    ensures |Drawn(outs, size, tape, {own} + {c}, size * 100 + 1, 1)| == size
  {
    BadTapeSuffices(outs, size, own, c, tape);
    TopUpsFill(outs, size, own, tape, {own} + {c}, 1);
  }

  /** On such a tape c ends up in the ring. */
  lemma {:induction false} BadTapeDraws(outs: OutputSet, size: nat, own: nat, c: nat, tape: Tape)
    requires outs.Aligned() && Enough(outs, size, own) && 2 <= size
    requires OtherOldCoinbase(outs, own, c) && IsBad(outs, size, own, c, tape)
    ensures |Chosen(outs, size, own, tape)| == size && c in Chosen(outs, size, own, tape)
  {
    BadTapeStarts(outs, size, own, c, tape);
    BadTapeFills(outs, size, own, c, tape);
    DrawnAdds(outs, size, tape, {own} + {c}, size * 100 + 1, 1);
  }

  lemma {:induction false} SecondAndOn(decoys: seq<nat>, own: nat, size: nat, j: nat)
    requires 0 < size == |decoys| + 1 && j < |decoys|
    ensures Positions(decoys, own, 0, size)[j + 1] == decoys[j]
  {
  }

  /** With the real output in front and no decoy to spare, every chosen output has a place. */
  lemma {:induction false} DecoyPlace(outs: OutputSet, size: nat, own: nat, tape: Tape, c: nat) returns (i: nat)
    requires outs.Aligned() && Enough(outs, size, own) && tape.signer == 0
    requires |Chosen(outs, size, own, tape)| == size && c in Chosen(outs, size, own, tape) && c != own
    ensures 0 < i < size && Indices(outs, size, own, tape)[i] == c
  {
    ChosenAreEligible(outs, size, own, tape);
    var decoys := DecoysOf(outs, size, own, tape);
    var j :| 0 <= j < |decoys| && decoys[j] == c;
    SecondAndOn(decoys, own, size, j);
    i := j + 1;
  }

  lemma {:induction false} BadTapeYields(outs: OutputSet, size: nat, own: nat, c: nat)
    requires outs.Aligned() && Enough(outs, size, own) && 2 <= size && Count(outs) <= U64_MAX
    requires OtherOldCoinbase(outs, own, c) && outs.tip < outs.maturity
    ensures InSet(outs, BadTape(outs, size, own, c)) && HoldsUnspendable(outs, size, own, BadTape(outs, size, own, c))
  {
    var tape := BadTape(outs, size, own, c);
    assert IsBad(outs, size, own, c, tape);
    BadTapeDraws(outs, size, own, c, tape);
    OldCoinbase(outs, c);
    var i := DecoyPlace(outs, size, own, tape, c);
    assert !outs.Spendable(Indices(outs, size, own, tape)[i]);
  }

  /** A decoy that may not be spent was taken for mature without being so. */
  lemma {:induction false} UnspendableDecoy(outs: OutputSet, size: nat, own: nat, tape: Tape) returns (c: nat)
    requires outs.Aligned() && HoldsUnspendable(outs, size, own, tape)
    ensures 2 <= size && outs.tip < outs.maturity && OtherOldCoinbase(outs, own, c)
  {
    IndicesDiffer(outs, size, own, tape);
    var i :| 0 <= i < size && i != SignerPlace(tape.signer, size) && !outs.Spendable(Indices(outs, size, own, tape)[i]);
    c := Indices(outs, size, own, tape)[i];
    assert Eligible(outs, c);
    OldCoinbase(outs, c);
  }

  lemma SpendableAreFew(outs: OutputSet)
    ensures Count(outs) <= |outs.meta|
  {
    RecentHas(outs.meta, Boundary(outs));
    CountedSet(outs);
    SubsetIsSmaller(Below(Boundary(outs)) + SetOf(RecentOf(outs)), Below(|outs.meta|));
  }

  /**
   Rings may hold a decoy the validator refuses exactly when at least one decoy is asked
   for, there are enough outputs, the tip is below the maturity and some coinbase other
   than the output spent counts as mature: below the maturity the cutoff saturates to zero,
   so the coinbase outputs of height zero pass for old ones.
   */
  lemma TopUpsAreSpendable(outs: OutputSet, size: nat, own: nat)
    requires outs.Aligned() && HeightsRise(outs.meta) && |outs.members| <= U64_MAX
    ensures (exists tape :: InSet(outs, tape) && HoldsUnspendable(outs, size, own, tape)) <==>
              && 2 <= size && Enough(outs, size, own)
              && outs.tip < outs.maturity
              && exists c :: OtherOldCoinbase(outs, own, c)
  {
    forall tape | HoldsUnspendable(outs, size, own, tape)
      ensures 2 <= size && outs.tip < outs.maturity && exists c :: OtherOldCoinbase(outs, own, c)
    {
      var c := UnspendableDecoy(outs, size, own, tape);
    }
    if 2 <= size && Enough(outs, size, own) && outs.tip < outs.maturity && exists c :: OtherOldCoinbase(outs, own, c) {
      var c :| OtherOldCoinbase(outs, own, c);
      SpendableAreFew(outs);
      BadTapeYields(outs, size, own, c);
    }
  }

  lemma {:induction false} TwoOutputs(outs: OutputSet)
    requires outs.meta == [OutputMeta(0, true), OutputMeta(1, false)] && outs.Cutoff() == 0
    ensures Boundary(outs) == 1 && RecentOf(outs) == [1] && Count(outs) == 2
  {
    SplitIsBoundary(outs, 1);
    assert Recent(outs.meta, 2) == [] && Recent(outs.meta, 1) == [1];
  }

  /**
   An instance: the outputs of a chain of two blocks with maturity 10, its genesis coinbase
   g and an output a of a transaction in the second block. A ring of two for a, when 200
   picks offer nothing else and the next draw tops up with index 0, is a together with the
   immature g.
   */
  lemma {:induction false} YoungChainTopsUpWithGenesis(g: RingMember, a: RingMember)
    ensures var outs := OutputSet([g, a], [OutputMeta(0, true), OutputMeta(1, false)], 2, 10);
            var tape := Tape(seq(201, _ => 1), [0], 0);
            Assemble(outs, 2, 1, tape) == Ring([a, g], 0) && !outs.Spendable(0) && HoldsUnspendable(outs, 2, 1, tape)
  {
    var outs := OutputSet([g, a], [OutputMeta(0, true), OutputMeta(1, false)], 2, 10);
    var tape := Tape(seq(201, _ => 1), [0], 0);
    TwoOutputs(outs);
    IdlePicks(outs, 2, 1, tape, {1}, 0);
    assert {1} + {1} == {1} && TopUp(outs, 0) == 0;
    assert Drawn(outs, 2, tape, {1}, 200, 0) == {1} + {0};
    assert Chosen(outs, 2, 1, tape) == {0, 1};
    var decoys := Decoys({0, 1}, 1, 2);
    assert |decoys| == 1 && decoys[0] in decoys;
    assert Indices(outs, 2, 1, tape) == [1, 0];
    assert !outs.Spendable(Indices(outs, 2, 1, tape)[1]);
  }

  // --- assembling a ring: the program --------------------------------------

  /** Distinct outputs, the real one at the signer's place, the others in ascending order. */
  ghost predicate RingOf(outs: OutputSet, size: nat, own: nat, ring: seq<RingMember>, signer: nat, indices: seq<nat>) {
    && |ring| == |indices| == size && signer < size
    && (forall i :: 0 <= i < size ==> indices[i] < |outs.members| && ring[i] == outs.members[indices[i]])
    && (forall i, j :: 0 <= i < j < size ==> indices[i] != indices[j])
    && (forall i, j :: 0 <= i < j < size && i != signer && j != signer ==> indices[i] < indices[j])
    && indices[signer] == own
  }

  method TopUpIndex(outs: OutputSet, boundary: nat, recent: seq<nat>, draw: U64) returns (i: nat)
    requires boundary == Boundary(outs) && recent == RecentOf(outs) && Count(outs) > 0
    ensures i == TopUp(outs, draw)
  {
    var k := draw % (boundary + |recent|);
    i := if k < boundary then k else recent[k - boundary];
  }

  /** Going on from here the draws end with `goal`. */
  ghost predicate LeadsTo(
    outs: OutputSet, size: nat, tape: Tape, chosen: set<nat>, attempts: nat, t: nat, goal: set<nat>)
  {
    Count(outs) > 0 && t <= |tape.tops| && Drawn(outs, size, tape, chosen, attempts, t) == goal
  }

  lemma {:induction false} DrawsBegin(outs: OutputSet, size: nat, own: nat, tape: Tape)
    requires outs.Aligned() && Enough(outs, size, own)
    ensures LeadsTo(outs, size, tape, {own}, 0, 0, Chosen(outs, size, own, tape))
  {
  }

  lemma {:induction false} DrawsEnd(
    outs: OutputSet, size: nat, tape: Tape, chosen: set<nat>, attempts: nat, t: nat, goal: set<nat>)
    requires LeadsTo(outs, size, tape, chosen, attempts, t, goal) && (|chosen| >= size || attempts >= |tape.picks|)
    ensures chosen == goal
  {
    DrawnStops(outs, size, tape, chosen, attempts, t);
  }

  /** One round of the draw loop; it is the last when a top-up is due and the tape has none left. */
  method OneRound(
    outs: OutputSet, size: nat, boundary: nat, recent: seq<nat>, tape: Tape, chosen: set<nat>, attempts: nat, t: nat,
    ghost goal: set<nat>)
    returns (next: set<nat>, t': nat, last: bool)
    requires boundary == Boundary(outs) && recent == RecentOf(outs)
    requires LeadsTo(outs, size, tape, chosen, attempts, t, goal) && |chosen| < size && attempts < |tape.picks|
    ensures if last then next == goal else LeadsTo(outs, size, tape, next, attempts + 1, t', goal)
  {
    DrawnUnfolds(outs, size, tape, chosen, attempts, t);
    next, t', last := chosen, t, false;
    if outs.Spendable(tape.picks[attempts]) {
      next := next + {tape.picks[attempts]};
    }
    if attempts + 1 > size * 100 {
      if t == |tape.tops| {
        last := true;
      } else {
        var i := TopUpIndex(outs, boundary, recent, tape.tops[t]);
        next := next + {i};
        t' := t + 1;
      }
    }
  }

  /** The draw loop: distinct indices, the real one among them. */
  method Draw(outs: OutputSet, size: nat, own: nat, boundary: nat, recent: seq<nat>, tape: Tape)
    returns (chosen: set<nat>)
    requires outs.Aligned() && Enough(outs, size, own) && boundary == Boundary(outs) && recent == RecentOf(outs)
    ensures chosen == Chosen(outs, size, own, tape)
  {
    chosen := {own};
    var attempts: nat, t: nat := 0, 0;
    ghost var goal := Chosen(outs, size, own, tape);
    DrawsBegin(outs, size, own, tape);
    while |chosen| < size && attempts < |tape.picks|
      invariant attempts <= |tape.picks| && LeadsTo(outs, size, tape, chosen, attempts, t, goal)
      decreases |tape.picks| - attempts
    {
      var last;
      chosen, t, last := OneRound(outs, size, boundary, recent, tape, chosen, attempts, t, goal);
      if last {
        return;
      }
      attempts := attempts + 1;
    }
    DrawsEnd(outs, size, tape, chosen, attempts, t, goal);
  }

  /** The members at the positions, one by one; the real one without looking at the decoys. */
  method Place(outs: OutputSet, decoys: seq<nat>, own: nat, signer: nat, size: nat) returns (ring: seq<RingMember>)
    requires signer < size <= |decoys| + 1 && own < |outs.members|
    requires forall i :: 0 <= i < |decoys| ==> decoys[i] < |outs.members|
    ensures |ring| == size
    ensures forall i :: 0 <= i < size ==> ring[i] == outs.members[Positions(decoys, own, signer, size)[i]]
  {
    ring := [];
    var d := 0;
    for pos := 0 to size
      invariant |ring| == pos && d == if pos <= signer then pos else pos - 1
      invariant forall i :: 0 <= i < pos ==> ring[i] == outs.members[Positions(decoys, own, signer, size)[i]]
    {
      if pos == signer {
        ring := ring + [outs.members[own]];
      } else {
        ring := ring + [outs.members[decoys[d]]];
        d := d + 1;
      }
    }
  }

  lemma {:induction false} PlacedIsAssembled(
    outs: OutputSet, size: nat, own: nat, tape: Tape, ring: seq<RingMember>)
    requires outs.Aligned() && Enough(outs, size, own) && |Chosen(outs, size, own, tape)| >= size
    requires |ring| == size
    requires forall i :: 0 <= i < size ==> ring[i] == outs.members[Indices(outs, size, own, tape)[i]]
    ensures Ring(ring, SignerPlace(tape.signer, size)) == Assemble(outs, size, own, tape)
  {
    assert ring == MembersAt(outs, Indices(outs, size, own, tape));
  }

  /** Sorts the decoys and places the real output among them. */
  method Finish(outs: OutputSet, size: nat, own: nat, tape: Tape, chosen: set<nat>)
    returns (ring: seq<RingMember>, signer: nat)
    requires outs.Aligned() && Enough(outs, size, own)
    requires chosen == Chosen(outs, size, own, tape) && |chosen| >= size
    ensures Ring(ring, signer) == Assemble(outs, size, own, tape)
  {
    ChosenAreEligible(outs, size, own, tape);
    var decoys := Decoys(chosen, own, |outs.members|);
    forall i | 0 <= i < |decoys|
      ensures decoys[i] < |outs.members|
    {
      assert decoys[i] in decoys;
    }
    signer := SignerPlace(tape.signer, size);
    ring := Place(outs, decoys, own, signer, size);
    PlacedIsAssembled(outs, size, own, tape, ring);
  }

  lemma DecoysAreSpendable(outs: OutputSet, size: nat, own: nat, tape: Tape)
    requires outs.Aligned() && HeightsRise(outs.meta) && Enough(outs, size, own)
    requires |Chosen(outs, size, own, tape)| >= size
    ensures Grown(outs) ==> forall i :: 0 <= i < size && i != SignerPlace(tape.signer, size) ==>
              outs.Spendable(Indices(outs, size, own, tape)[i])
  {
    var indices := Indices(outs, size, own, tape);
    IndicesDiffer(outs, size, own, tape);
    forall i | Grown(outs) && 0 <= i < size && i != SignerPlace(tape.signer, size)
      ensures outs.Spendable(indices[i])
    {
      assert Eligible(outs, indices[i]);
      SuffixIsImmature(outs, indices[i]);
    }
  }

  method AssembleRing(outs: OutputSet, size: nat, own: nat, tape: Tape)
    returns (r: Assembled, ghost indices: seq<nat>)
    requires outs.Aligned() && HeightsRise(outs.meta)
    ensures r == Assemble(outs, size, own, tape)
    ensures Grown(outs) ==>
              (r.Refused? <==> size == 0 || size > |outs.members| || own >= |outs.members|
                               || |outs.SpendableSet()| < size)
    ensures r.OutOfDraws? ==> |Offered(outs, size, tape.picks) + {own}| < size
    ensures r.Ring? ==> RingOf(outs, size, own, r.members, r.signer, indices) && r.signer == tape.signer % size
    ensures r.Ring? && Grown(outs) ==> forall i :: 0 <= i < size && i != r.signer ==> outs.Spendable(indices[i])
  {
    indices := [];
    if size == 0 || size > |outs.members| || own >= |outs.members| {
      return Refused, indices;
    }
    var boundary := PartitionPointByHeight(outs.meta, h => h <= outs.Cutoff());
    SplitIsBoundary(outs, boundary);
    var recent := Recent(outs.meta, boundary);
    assert Grown(outs) ==> boundary + |recent| == |outs.SpendableSet()| by {
      if Grown(outs) {
        CountIsSpendable(outs);
      }
    }
    if boundary + |recent| < size {
      return Refused, indices;
    }
    var chosen := Draw(outs, size, own, boundary, recent, tape);
    if |chosen| < size {
      OfferedIsChosen(outs, size, own, tape);
      ChosenAreEligible(outs, size, own, tape);
      SubsetIsSmaller(Offered(outs, size, tape.picks) + {own}, chosen);
      return OutOfDraws, indices;
    }
    var ring, signer := Finish(outs, size, own, tape, chosen);
    r := Ring(ring, signer);
    indices := Indices(outs, size, own, tape);
    IndicesDiffer(outs, size, own, tape);
    DecoysAreSpendable(outs, size, own, tape);
  }
}
