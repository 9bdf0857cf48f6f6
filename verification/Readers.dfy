/**
 The wire module's vector reader as it runs: a cursor over a buffer that advances past
 each field, and a loop that stops at the first item that does not read
 (noct/core/src/wire.rs). It is proved to read what the counted format reads.
 */
module Readers {
  import opened Types
  import opened Formats

  type Read<+T> = Result<(T, seq<Byte>), WireError>

  /** What was read before, put in front of what is read next. */
  function Prepend<T>(xs: seq<T>, r: Read<seq<T>>): Read<seq<T>> {
    match r
    case Err(e) => Err(e)
    case Ok((ys, rest)) => Ok((xs + ys, rest))
  }

  lemma Prepended<T>(xs: seq<T>, r: Read<seq<T>>)
    ensures xs == [] ==> Prepend(xs, r) == r
  {
    if r.Ok? && xs == [] {
      assert xs + r.value.0 == r.value.0;
    }
  }

  lemma PrependedTwice<T>(xs: seq<T>, x: T, r: Read<seq<T>>)
    ensures Prepend(xs, Prepend([x], r)) == Prepend(xs + [x], r)
  {
    if r.Ok? {
      assert xs + ([x] + r.value.0) == (xs + [x]) + r.value.0;
    }
  }

  /** A 4-byte count, refused above `max`. */
  function ReadCount(max: nat, s: seq<Byte>): Read<nat> {
    match Unsigned(4).read(s)
    case Err(e) => Err(e)
    case Ok((n, rest)) => if n > max then Err(TooLarge) else Ok((n, rest))
  }

  lemma CountedReads<T>(max: nat, item: Format<T>, s: seq<Byte>)
    ensures var count := ReadCount(max, s);
            Counted(4, max, item).read(s) ==
            if count.Err? then Err(count.error) else ReadItems(item, count.value.0, count.value.1)
  {
  }

  /** A format's outcome as a cursor method reports it. */
  ghost predicate Outcome<T>(expected: Read<T>, r: Result<T, WireError>, left: seq<Byte>) {
    match expected
    case Err(e) => r == Err(e)
    case Ok((x, rest)) => r == Ok(x) && left == rest
  }

  /** Having read `out`, i items of the n that start there, a reader stands at `left`. */
  ghost predicate Reading<T>(item: Format<T>, n: nat, start: seq<Byte>, i: nat, out: seq<T>, left: seq<Byte>) {
    i <= n && ReadItems(item, n, start) == Prepend(out, ReadItems(item, n - i, left))
  }

  lemma ReadingStarts<T>(item: Format<T>, n: nat, start: seq<Byte>)
    ensures Reading(item, n, start, 0, [], start)
  {
    Prepended([], ReadItems(item, n, start));
  }

  /** One item more: it does not read, and nothing does, or the reader stands behind it. */
  lemma ReadingGoesOn<T>(
    item: Format<T>, n: nat, start: seq<Byte>, i: nat, out: seq<T>, left: seq<Byte>, x: Result<T, WireError>,
    after: seq<Byte>)
    requires i < n && Reading(item, n, start, i, out, left) && Outcome(item.read(left), x, after)
    ensures x.Err? ==> Outcome(ReadItems(item, n, start), Err(x.error), after)
    ensures x.Ok? ==> Reading(item, n, start, i + 1, out + [x.value], after)
  {
    if x.Ok? {
      PrependedTwice(out, x.value, ReadItems(item, n - i - 1, after));
    }
  }

  lemma ReadingEnds<T>(item: Format<T>, n: nat, start: seq<Byte>, out: seq<T>, left: seq<Byte>)
    requires Reading(item, n, start, n, out, left)
    ensures Outcome(ReadItems(item, n, start), Ok(out), left)
  {
    assert out + [] == out;
  }

  class Cursor {
    var left: seq<Byte>

    constructor (bytes: seq<Byte>)
      ensures left == bytes
    {
      left := bytes;
    }

    /** Reads one field; after an error the cursor is no longer used. */
    method Field<T>(f: Format<T>) returns (r: Result<T, WireError>)
      modifies this
      ensures Outcome(f.read(old(left)), r, left)
    {
      match f.read(left)
      case Err(e) =>
        r := Err(e);
      case Ok((x, rest)) =>
        left := rest;
        r := Ok(x);
    }

    /** The count in front of a vector, refused before any item is read. */
    method Count(max: nat) returns (r: Result<nat, WireError>)
      modifies this
      ensures Outcome(ReadCount(max, old(left)), r, left)
    {
      r := Field(Unsigned(4));
      if r.Ok? && r.value > max {
        r := Err(TooLarge);
      }
    }

    /** The items of a vector one by one, up to the first that does not read. */
    method Items<T(==)>(n: nat, item: Format<T>) returns (r: Result<seq<T>, WireError>)
      modifies this
      ensures Outcome(ReadItems(item, n, old(left)), r, left)
    {
      var out: seq<T> := [];
      ReadingStarts(item, n, left);
      for i := 0 to n
        invariant Reading(item, n, old(left), i, out, left)
      {
        ghost var before := left;
        var x := Field(item);
        ReadingGoesOn(item, n, old(left), i, out, before, x, left);
        if x.Err? {
          return Err(x.error);
        }
        out := out + [x.value];
      }
      ReadingEnds(item, n, old(left), out, left);
      r := Ok(out);
    }

    /** A vector of single fields. */
    method Vec<T(==)>(max: nat, item: Format<T>) returns (r: Result<seq<T>, WireError>)
      modifies this
      ensures Outcome(Counted(4, max, item).read(old(left)), r, left)
    {
      CountedReads(max, item, left);
      var n := Count(max);
      if n.Err? {
        return Err(n.error);
      }
      r := Items(n.value, item);
    }
  }
}
