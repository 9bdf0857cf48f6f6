/**
 What each draw of a ring decides: which outputs the picks and top-ups bring in, and, apart
 from them, where the real output goes (`assemble_ring` of noct/core/src/chain.rs).
 */
module RingDraws {
  import opened Types
  import opened RingSelection

  // --- the outputs drawn ---------------------------------------------------

  /** The outputs let in after k rounds. */
  function LetIn(outs: OutputSet, size: nat, own: nat, tape: Tape, k: nat): set<nat>
    requires Count(outs) > 0 && k <= |tape.picks|
  {
    if k == 0 then {own}
    else
      var more := Round(outs, tape, LetIn(outs, size, own, tape, k - 1), k - 1);
      var t := k - 1 - size * 100;
      if 0 <= t < |tape.tops| then more + {TopUp(outs, tape.tops[t])} else more
  }

  /** They are the real one, the spendable picks so far, and a top-up for every round past 100 a member. */
  lemma {:induction false} LetInIs(outs: OutputSet, size: nat, own: nat, tape: Tape, k: nat)
    requires Count(outs) > 0 && k <= |tape.picks|
    ensures forall x :: x in LetIn(outs, size, own, tape, k) <==>
              || x == own
              || (x in tape.picks[..k] && outs.Spendable(x))
              || exists t :: 0 <= t < Min(k - size * 100, |tape.tops|) && x == TopUp(outs, tape.tops[t])
  {
    if k > 0 {
      LetInIs(outs, size, own, tape, k - 1);
      assert tape.picks[..k] == tape.picks[..k - 1] + [tape.picks[k - 1]];
    }
  }

  /** After k rounds there are too few, and no top-up has been missed. */
  predicate TooFew(outs: OutputSet, size: nat, own: nat, tape: Tape, k: nat)
    requires Count(outs) > 0 && k <= |tape.picks|
  {
    |LetIn(outs, size, own, tape, k)| < size && k - size * 100 <= |tape.tops|
  }

  /** There were too few after every round before the k-th. */
  predicate FewBefore(outs: OutputSet, size: nat, own: nat, tape: Tape, k: nat)
    requires Count(outs) > 0
  {
    k <= |tape.picks| && forall j :: 0 <= j < k ==> TooFew(outs, size, own, tape, j)
  }

  /** The rounds go on while there are too few and the tape has another pick. */
  predicate Rounds(outs: OutputSet, size: nat, own: nat, tape: Tape, k: nat)
    requires Count(outs) > 0
  {
    FewBefore(outs, size, own, tape, k) && (TooFew(outs, size, own, tape, k) ==> k == |tape.picks|)
  }

  lemma {:induction false} FewAfter(outs: OutputSet, size: nat, own: nat, tape: Tape, k: nat)
    requires Count(outs) > 0 && k < |tape.picks|
    requires FewBefore(outs, size, own, tape, k) && TooFew(outs, size, own, tape, k)
    ensures FewBefore(outs, size, own, tape, k + 1)
  {
  }

  lemma {:induction false} RoundsEnd(outs: OutputSet, size: nat, own: nat, tape: Tape, j: nat) returns (k: nat)
    requires Count(outs) > 0 && FewBefore(outs, size, own, tape, j)
    ensures Rounds(outs, size, own, tape, k)
    decreases |tape.picks| - j
  {
    if j == |tape.picks| || !TooFew(outs, size, own, tape, j) {
      k := j;
    } else {
      FewAfter(outs, size, own, tape, j);
      k := RoundsEnd(outs, size, own, tape, j + 1);
    }
  }

  /** What the draws will end with, after j rounds that missed no top-up. */
  function Ahead(outs: OutputSet, size: nat, own: nat, tape: Tape, j: nat): set<nat>
    requires Count(outs) > 0
  {
    if j > |tape.picks| || j - size * 100 > |tape.tops| then {}
    else Drawn(outs, size, tape, LetIn(outs, size, own, tape, j), j, Max(j - size * 100, 0))
  }

  lemma {:induction false} AheadOnce(outs: OutputSet, size: nat, own: nat, tape: Tape, j: nat)
    requires Count(outs) > 0 && j < |tape.picks| && TooFew(outs, size, own, tape, j)
    ensures Ahead(outs, size, own, tape, j) ==
            if j - size * 100 == |tape.tops| then LetIn(outs, size, own, tape, j + 1)
            else Ahead(outs, size, own, tape, j + 1)
  {
    DrawnUnfolds(outs, size, tape, LetIn(outs, size, own, tape, j), j, Max(j - size * 100, 0));
  }

  predicate Level<T(==)>(f: nat -> T, i: nat) {
    f(i) == f(i + 1)
  }

  lemma {:induction false} Steady<T>(f: nat -> T, k: nat)
    requires forall i :: 0 <= i < k ==> Level(f, i)
    ensures f(0) == f(k)
  {
    if k > 0 {
      Steady(f, k - 1);
      assert Level(f, k - 1);
    }
  }

  function Outlook(outs: OutputSet, size: nat, own: nat, tape: Tape): nat -> set<nat>
    requires Count(outs) > 0
  {
    (j: nat) => Ahead(outs, size, own, tape, j)
  }

  lemma {:induction false} OutlookIsLevel(outs: OutputSet, size: nat, own: nat, tape: Tape, k: nat, i: nat)
    requires Count(outs) > 0 && FewBefore(outs, size, own, tape, k) && i < k && k - size * 100 <= |tape.tops|
    ensures Level(Outlook(outs, size, own, tape), i)
  {
    AheadOnce(outs, size, own, tape, i);
  }

  lemma {:induction false} SameOutlook(outs: OutputSet, size: nat, own: nat, tape: Tape, k: nat)
    requires Count(outs) > 0 && FewBefore(outs, size, own, tape, k) && k - size * 100 <= |tape.tops|
    ensures Outlook(outs, size, own, tape)(0) == Outlook(outs, size, own, tape)(k)
  {
    forall i | 0 <= i < k
      ensures Level(Outlook(outs, size, own, tape), i)
    {
      OutlookIsLevel(outs, size, own, tape, k, i);
    }
    Steady(Outlook(outs, size, own, tape), k);
  }

  lemma {:induction false} AtTheEnd(outs: OutputSet, size: nat, own: nat, tape: Tape, k: nat)
    requires Count(outs) > 0 && Rounds(outs, size, own, tape, k) && k - size * 100 <= |tape.tops|
    ensures Ahead(outs, size, own, tape, k) == LetIn(outs, size, own, tape, k)
  {
    DrawnStops(outs, size, tape, LetIn(outs, size, own, tape, k), k, Max(k - size * 100, 0));
  }

  lemma {:induction false} LastWasFew(outs: OutputSet, size: nat, own: nat, tape: Tape, k: nat)
    requires Count(outs) > 0 && Rounds(outs, size, own, tape, k) && k - size * 100 > |tape.tops|
    ensures k >= 1 && FewBefore(outs, size, own, tape, k - 1) && k - 1 - size * 100 == |tape.tops|
    ensures Ahead(outs, size, own, tape, k - 1) == LetIn(outs, size, own, tape, k)
  {
    assert TooFew(outs, size, own, tape, k - 1);
    AheadOnce(outs, size, own, tape, k - 1);
  }

  /** What is chosen is what was let in when the rounds ended. */
  lemma {:induction false} ChosenIs(outs: OutputSet, size: nat, own: nat, tape: Tape) returns (k: nat)
    requires outs.Aligned() && Enough(outs, size, own)
    ensures Rounds(outs, size, own, tape, k) && Chosen(outs, size, own, tape) == LetIn(outs, size, own, tape, k)
  {
    k := RoundsEnd(outs, size, own, tape, 0);
    if k - size * 100 <= |tape.tops| {
      AtTheEnd(outs, size, own, tape, k);
      SameOutlook(outs, size, own, tape, k);
    } else {
      LastWasFew(outs, size, own, tape, k);
      SameOutlook(outs, size, own, tape, k - 1);
    }
  }

  // --- the place of the real output ----------------------------------------

  lemma {:induction false} DrawnIgnoresSigner(
    outs: OutputSet, size: nat, tape: Tape, draw: U64, chosen: set<nat>, attempts: nat, t: nat)
    requires Count(outs) > 0 && t <= |tape.tops|
    ensures Drawn(outs, size, tape.(signer := draw), chosen, attempts, t) ==
            Drawn(outs, size, tape, chosen, attempts, t)
    decreases |tape.picks| - attempts
  {
    if |chosen| < size && attempts < |tape.picks| {
      var more := Round(outs, tape, chosen, attempts);
      if attempts + 1 <= size * 100 {
        DrawnIgnoresSigner(outs, size, tape, draw, more, attempts + 1, t);
      } else if t < |tape.tops| {
        DrawnIgnoresSigner(outs, size, tape, draw, more + {TopUp(outs, tape.tops[t])}, attempts + 1, t + 1);
      }
    }
  }

  lemma {:induction false} PlacedAnywhere(decoys: seq<nat>, own: nat, signer: nat, size: nat)
    requires signer < size <= |decoys| + 1
    ensures Positions(decoys, own, signer, size)[signer] == own
    ensures multiset(Positions(decoys, own, signer, size)) == multiset(decoys[..size - 1]) + multiset{own}
  {
    assert decoys[..size - 1] == decoys[..signer] + decoys[signer..size - 1];
  }

  /** The same ring but for the order: same outputs, the real one at the given place. */
  ghost predicate SameRingAt(outs: OutputSet, size: nat, own: nat, tape: Tape, other: Tape, place: nat)
    requires outs.Aligned() && Assemble(outs, size, own, tape).Ring?
  {
    && Assemble(outs, size, own, other).Ring? && Assemble(outs, size, own, other).signer == place < size
    && Assemble(outs, size, own, other).members[place] == outs.members[own]
    && Indices(outs, size, own, other)[place] == own
    && multiset(Indices(outs, size, own, other)) == multiset(Indices(outs, size, own, tape))
  }

  /**
   With the rest of the tape fixed, the last draw decides the place of the real output,
   the same for draws equal modulo the size, and nothing else.
   */
  lemma {:induction false} SignerGoesWhereDrawn(outs: OutputSet, size: nat, own: nat, tape: Tape, draw: U64)
    requires outs.Aligned() && Assemble(outs, size, own, tape).Ring?
    ensures SameRingAt(outs, size, own, tape, tape.(signer := draw), draw % size)
  {
    DrawnIgnoresSigner(outs, size, tape, draw, {own}, 0, 0);
    var decoys := DecoysOf(outs, size, own, tape);
    PlacedAnywhere(decoys, own, SignerPlace(draw, size), size);
    PlacedAnywhere(decoys, own, SignerPlace(tape.signer, size), size);
  }

  /** So every place is drawn. */
  lemma {:induction false} EveryPlaceIsDrawn(outs: OutputSet, size: nat, own: nat, tape: Tape, place: U64)
    requires outs.Aligned() && Assemble(outs, size, own, tape).Ring? && place < size
    ensures SameRingAt(outs, size, own, tape, tape.(signer := place), place)
  {
    SmallModulus(place, size);
    SignerGoesWhereDrawn(outs, size, own, tape, place);
  }
}
