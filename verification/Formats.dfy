/**
 Byte formats with exact codecs. A format is a writer, a cursor reader and the values
 it is for; it is `Exact` when every such value reads back with the unread suffix
 intact, and when whatever reads is the writing of the value read. Formats compose,
 and so does exactness.
 */
module Formats {
  import opened Types
  import opened LittleEndian

  datatype WireError = Truncated | BadPoint | BadProof | BadTag | TooLarge | TrailingBytes

  datatype Format<!T> = Format(
    fits: T -> bool,
    write: T -> seq<Byte>,
    read: seq<Byte> -> Result<(T, seq<Byte>), WireError>)

  ghost predicate ReadsBack<T(!new)>(f: Format<T>) {
    forall x: T, rest: seq<Byte> {:trigger f.read(f.write(x) + rest)} ::
      f.fits(x) ==> f.read(f.write(x) + rest) == Ok((x, rest))
  }

  ghost predicate Canonical<T(!new)>(f: Format<T>) {
    forall s: seq<Byte> {:trigger f.read(s)} ::
      f.read(s).Ok? ==> f.fits(f.read(s).value.0) && s == f.write(f.read(s).value.0) + f.read(s).value.1
  }

  ghost predicate Exact<T(!new)>(f: Format<T>) {
    ReadsBack(f) && Canonical(f)
  }

  /** Decoding a whole buffer: bytes left over are an error. */
  function DecodeAll<T>(f: Format<T>, bytes: seq<Byte>): Result<T, WireError> {
    match f.read(bytes)
    case Err(e) => Err(e)
    case Ok((x, rest)) => if rest == [] then Ok(x) else Err(TrailingBytes)
  }

  /**
   The two directions of a codec over whole buffers: decoding inverts encoding, and a
   buffer that decodes is the one encoding of its value.
   */
  lemma DecodeInvertsEncode<T(!new)>(f: Format<T>, x: T, bytes: seq<Byte>)
    requires Exact(f)
    ensures f.fits(x) ==> DecodeAll(f, f.write(x)) == Ok(x)
    ensures DecodeAll(f, bytes).Ok? ==>
              f.fits(DecodeAll(f, bytes).value) && f.write(DecodeAll(f, bytes).value) == bytes
  {
    assert f.write(x) + [] == f.write(x);
    assert f.read(f.write(x) + []) == f.read(f.write(x));
    if f.read(bytes).Ok? {
      assert bytes == f.write(f.read(bytes).value.0) + f.read(bytes).value.1;
    }
  }

  lemma WritingDecodes<T(!new)>(f: Format<T>, x: T)
    requires ReadsBack(f) && f.fits(x)
    ensures DecodeAll(f, f.write(x)) == Ok(x)
  {
    assert f.write(x) + [] == f.write(x);
    assert f.read(f.write(x) + []) == Ok((x, []));
  }

  /** A buffer decodes to a value exactly when the value fits and the buffer is its writing. */
  lemma DecodesExactly<T(!new)>(f: Format<T>, x: T, bytes: seq<Byte>)
    requires Exact(f)
    ensures DecodeAll(f, bytes) == Ok(x) <==> f.fits(x) && bytes == f.write(x)
  {
    DecodeInvertsEncode(f, x, bytes);
  }

  // --- primitive formats ---------------------------------------------------

  function Take(s: seq<Byte>, n: nat): Result<(seq<Byte>, seq<Byte>), WireError> {
    if |s| < n then Err(Truncated) else Ok((s[..n], s[n..]))
  }

  /** `n` raw bytes. */
  function Raw(n: nat): Format<seq<Byte>> {
    Format((b: seq<Byte>) => |b| == n, (b: seq<Byte>) => b, (s: seq<Byte>) => Take(s, n))
  }

  lemma RawExact(n: nat)
    ensures Exact(Raw(n))
  {
    var f := Raw(n);
    forall x: seq<Byte>, rest: seq<Byte> | f.fits(x)
      ensures f.read(f.write(x) + rest) == Ok((x, rest))
    {
      assert (x + rest)[..n] == x && (x + rest)[n..] == rest;
    }
  }

  /** An unsigned little-endian integer of n bytes. */
  function Unsigned(n: nat): Format<nat> {
    Format(
      (x: nat) => x < Power256(n),
      (x: nat) => ToLe(n, x),
      (s: seq<Byte>) => if |s| < n then Err(Truncated) else Ok((FromLe(s[..n]), s[n..])))
  }

  lemma UnsignedExact(n: nat)
    ensures Exact(Unsigned(n))
  {
    var f := Unsigned(n);
    forall x: nat, rest: seq<Byte> | f.fits(x)
      ensures f.read(f.write(x) + rest) == Ok((x, rest))
    {
      var b := ToLe(n, x);
      assert (b + rest)[..n] == b && (b + rest)[n..] == rest;
      ToFromLe(n, x);
    }
    forall s: seq<Byte> | f.read(s).Ok?
      ensures f.fits(f.read(s).value.0) && s == f.write(f.read(s).value.0) + f.read(s).value.1
    {
      FromToLe(s[..n]);
      assert s == s[..n] + s[n..];
    }
  }

  // --- composition ---------------------------------------------------------

  /** A value followed by another whose format may depend on it. */
  function Then<A, B>(f: Format<A>, g: A -> Format<B>): Format<(A, B)> {
    Format(
      (p: (A, B)) => f.fits(p.0) && g(p.0).fits(p.1),
      (p: (A, B)) => f.write(p.0) + g(p.0).write(p.1),
      (s: seq<Byte>) =>
        match f.read(s)
        case Err(e) => Err(e)
        case Ok((a, s')) =>
          match g(a).read(s')
          case Err(e) => Err(e)
          case Ok((b, rest)) => Ok(((a, b), rest)))
  }

  lemma ThenReadsBack<A(!new), B(!new)>(f: Format<A>, g: A -> Format<B>)
    requires ReadsBack(f)
    requires forall a: A :: f.fits(a) ==> ReadsBack(g(a))
    ensures ReadsBack(Then(f, g))
  {
    var h := Then(f, g);
    forall p: (A, B), rest: seq<Byte> | h.fits(p)
      ensures h.read(h.write(p) + rest) == Ok((p, rest))
    {
      var first, second := f.write(p.0), g(p.0).write(p.1);
      assert (first + second) + rest == first + (second + rest);
      assert f.read(f.write(p.0) + (second + rest)) == Ok((p.0, second + rest));
      assert ReadsBack(g(p.0));
    }
  }

  lemma ThenExact<A(!new), B(!new)>(f: Format<A>, g: A -> Format<B>)
    requires Exact(f)
    requires forall a: A :: f.fits(a) ==> Exact(g(a))
    ensures Exact(Then(f, g))
  {
    ThenReadsBack(f, g);
    var h := Then(f, g);
    forall s: seq<Byte> | h.read(s).Ok?
      ensures h.fits(h.read(s).value.0) && s == h.write(h.read(s).value.0) + h.read(s).value.1
    {
      var (a, s') := f.read(s).value;
      assert Exact(g(a));
      var (b, rest) := g(a).read(s').value;
      assert s == f.write(a) + (g(a).write(b) + rest);
      assert s == (f.write(a) + g(a).write(b)) + rest;
    }
  }

  /** The same bytes read as another type. */
  function Mapped<A, B(==)>(f: Format<A>, build: A -> B, parts: B -> A): Format<B> {
    Format(
      (b: B) => f.fits(parts(b)) && build(parts(b)) == b,
      (b: B) => f.write(parts(b)),
      (s: seq<Byte>) =>
        match f.read(s)
        case Err(e) => Err(e)
        case Ok((a, rest)) => Ok((build(a), rest)))
  }

  lemma MappedReadsBack<A(!new), B(!new)>(f: Format<A>, build: A -> B, parts: B -> A)
    requires ReadsBack(f)
    ensures ReadsBack(Mapped(f, build, parts))
  {
    var h := Mapped(f, build, parts);
    forall b: B, rest: seq<Byte> | h.fits(b)
      ensures h.read(h.write(b) + rest) == Ok((b, rest))
    {
      assert f.read(f.write(parts(b)) + rest) == Ok((parts(b), rest));
    }
  }

  lemma MappedExact<A(!new), B(!new)>(f: Format<A>, build: A -> B, parts: B -> A)
    requires Exact(f)
    requires forall a: A :: f.fits(a) ==> parts(build(a)) == a
    ensures Exact(Mapped(f, build, parts))
  {
    MappedReadsBack(f, build, parts);
    var h := Mapped(f, build, parts);
    forall s: seq<Byte> | h.read(s).Ok?
      ensures h.fits(h.read(s).value.0) && s == h.write(h.read(s).value.0) + h.read(s).value.1
    {
      assert f.read(s).Ok?;
    }
  }

  /** Values that must pass a check after they are read. */
  function Checked<T>(f: Format<T>, ok: T -> bool, error: WireError): Format<T> {
    Format(
      (x: T) => f.fits(x) && ok(x),
      f.write,
      (s: seq<Byte>) =>
        match f.read(s)
        case Err(e) => Err(e)
        case Ok((x, rest)) => if ok(x) then Ok((x, rest)) else Err(error))
  }

  lemma CheckedExact<T(!new)>(f: Format<T>, ok: T -> bool, error: WireError)
    requires Exact(f)
    ensures Exact(Checked(f, ok, error))
  {
    var h := Checked(f, ok, error);
    forall x: T, rest: seq<Byte> | h.fits(x)
      ensures h.read(h.write(x) + rest) == Ok((x, rest))
    {
      assert f.read(f.write(x) + rest) == Ok((x, rest));
    }
    forall s: seq<Byte> | h.read(s).Ok?
      ensures h.fits(h.read(s).value.0) && s == h.write(h.read(s).value.0) + h.read(s).value.1
    {
      assert f.read(s).Ok?;
    }
  }

  /** Nothing at all: writes no bytes, and stands for one fixed value. */
  function Nothing<T(==)>(x: T): Format<T> {
    Format((y: T) => y == x, (y: T) => [], (s: seq<Byte>) => Ok((x, s)))
  }

  lemma NothingExact<T(!new)>(x: T)
    ensures Exact(Nothing(x))
  {
    var f := Nothing(x);
    forall y: T, rest: seq<Byte> | f.fits(y)
      ensures f.read(f.write(y) + rest) == Ok((y, rest))
    {
      assert [] + rest == rest;
    }
  }

  /** No value at all: reading fails. */
  function Never<T>(error: WireError): Format<T> {
    Format((y: T) => false, (y: T) => [], (s: seq<Byte>) => Err(error))
  }

  lemma NeverExact<T(!new)>(error: WireError)
    ensures Exact(Never<T>(error))
  {
  }

  /** A value that has to be absent. */
  function Absent<T(==)>(f: Format<T>): Format<Option<T>> {
    Format(
      (x: Option<T>) => x.None?,
      (x: Option<T>) => if x.Some? then f.write(x.value) else [],
      (s: seq<Byte>) => Ok((None, s)))
  }

  lemma AbsentExact<T(!new)>(f: Format<T>)
    ensures Exact(Absent(f))
  {
    var h := Absent(f);
    forall x: Option<T>, rest: seq<Byte> | h.fits(x)
      ensures h.read(h.write(x) + rest) == Ok((x, rest))
    {
      assert [] + rest == rest;
    }
  }

  /** Values the reader refuses, though the writer would write them. */
  function Refused<T>(f: Format<T>, error: WireError): Format<T> {
    Format((x: T) => false, f.write, (s: seq<Byte>) => Err(error))
  }

  lemma RefusedExact<T(!new)>(f: Format<T>, error: WireError)
    ensures Exact(Refused(f, error))
  {
  }

  // --- vectors -------------------------------------------------------------

  /** The bytes of the items one after another. */
  function Concat<T>(w: T -> seq<Byte>, xs: seq<T>): seq<Byte> {
    if xs == [] then [] else w(xs[0]) + Concat(w, xs[1..])
  }

  lemma {:induction false} ConcatSnoc<T>(w: T -> seq<Byte>, xs: seq<T>, i: nat)
    requires i < |xs|
    ensures Concat(w, xs[..i + 1]) == Concat(w, xs[..i]) + w(xs[i])
  {
    if i == 0 {
      assert xs[..1][1..] == [];
    } else {
      ConcatSnoc(w, xs[1..], i - 1);
      assert xs[..i + 1][1..] == xs[1..][..i];
      assert xs[..i][1..] == xs[1..][..i - 1];
    }
  }

  lemma {:induction false} ConcatSame<T>(v: T -> seq<Byte>, w: T -> seq<Byte>, xs: seq<T>)
    requires forall i :: 0 <= i < |xs| ==> v(xs[i]) == w(xs[i])
    ensures Concat(v, xs) == Concat(w, xs)
  {
    if xs != [] {
      ConcatSame(v, w, xs[1..]);
    }
  }

  function ReadItems<T>(f: Format<T>, n: nat, s: seq<Byte>): Result<(seq<T>, seq<Byte>), WireError> {
    if n == 0 then Ok(([], s))
    else
      match f.read(s)
      case Err(e) => Err(e)
      case Ok((x, s')) =>
        match ReadItems(f, n - 1, s')
        case Err(e) => Err(e)
        case Ok((xs, rest)) => Ok(([x] + xs, rest))
  }

  predicate AllFit<T>(f: Format<T>, xs: seq<T>) {
    xs == [] || (f.fits(xs[0]) && AllFit(f, xs[1..]))
  }

  /** Exactly n items, without a count. */
  function Times<T>(f: Format<T>, n: nat): Format<seq<T>> {
    Format(
      (xs: seq<T>) => |xs| == n && AllFit(f, xs),
      (xs: seq<T>) => Concat(f.write, xs),
      (s: seq<Byte>) => ReadItems(f, n, s))
  }

  lemma {:induction false} ItemsReadBack<T(!new)>(f: Format<T>, xs: seq<T>, rest: seq<Byte>)
    requires ReadsBack(f) && AllFit(f, xs)
    ensures ReadItems(f, |xs|, Concat(f.write, xs) + rest) == Ok((xs, rest))
  {
    if xs == [] {
      assert [] + rest == rest;
    } else {
      ItemsReadBack(f, xs[1..], rest);
      var tail := Concat(f.write, xs[1..]) + rest;
      assert Concat(f.write, xs) + rest == f.write(xs[0]) + tail;
      assert f.read(f.write(xs[0]) + tail) == Ok((xs[0], tail));
      assert [xs[0]] + xs[1..] == xs;
    }
  }

  lemma {:induction false} ItemsCanonical<T(!new)>(f: Format<T>, n: nat, s: seq<Byte>)
    requires Exact(f) && ReadItems(f, n, s).Ok?
    ensures var (xs, rest) := ReadItems(f, n, s).value;
            |xs| == n && AllFit(f, xs) && s == Concat(f.write, xs) + rest
    decreases n
  {
    if n == 0 {
      assert [] + s == s;
    } else {
      var (x, s') := f.read(s).value;
      ItemsCanonical(f, n - 1, s');
      var (xs, rest) := ReadItems(f, n - 1, s').value;
      assert ([x] + xs)[1..] == xs;
      assert s == f.write(x) + (Concat(f.write, xs) + rest);
    }
  }

  lemma TimesReadsBack<T(!new)>(f: Format<T>, n: nat)
    requires ReadsBack(f)
    ensures ReadsBack(Times(f, n))
  {
    var h := Times(f, n);
    forall xs: seq<T>, rest: seq<Byte> | h.fits(xs)
      ensures h.read(h.write(xs) + rest) == Ok((xs, rest))
    {
      ItemsReadBack(f, xs, rest);
    }
  }

  lemma TimesExact<T(!new)>(f: Format<T>, n: nat)
    requires Exact(f)
    ensures Exact(Times(f, n))
  {
    TimesReadsBack(f, n);
    var h := Times(f, n);
    forall s: seq<Byte> | h.read(s).Ok?
      ensures h.fits(h.read(s).value.0) && s == h.write(h.read(s).value.0) + h.read(s).value.1
    {
      ItemsCanonical(f, n, s);
    }
  }

  function CountF(width: nat, max: nat): Format<nat> {
    Checked(Unsigned(width), (n: nat) => n <= max, TooLarge)
  }

  lemma CountExact(width: nat, max: nat)
    ensures Exact(CountF(width, max))
  {
    UnsignedExact(width);
    CheckedExact(Unsigned(width), (n: nat) => n <= max, TooLarge);
  }

  /** A count of `width` bytes, refused above `max` before any item is read, then the items. */
  function Counted<T(==)>(width: nat, max: nat, f: Format<T>): Format<seq<T>> {
    Mapped(
      Then(CountF(width, max), (n: nat) => Times(f, n)),
      (p: (nat, seq<T>)) => p.1,
      (xs: seq<T>) => (|xs|, xs))
  }

  lemma CountedReadsBack<T(!new)>(width: nat, max: nat, f: Format<T>)
    requires ReadsBack(f)
    ensures ReadsBack(Counted(width, max, f))
  {
    var items := (n: nat) => Times(f, n);
    CountExact(width, max);
    forall n: nat
      ensures ReadsBack(items(n))
    {
      TimesReadsBack(f, n);
    }
    ThenReadsBack(CountF(width, max), items);
    MappedReadsBack(Then(CountF(width, max), items), (p: (nat, seq<T>)) => p.1, (xs: seq<T>) => (|xs|, xs));
  }

  lemma CountedExact<T(!new)>(width: nat, max: nat, f: Format<T>)
    requires Exact(f)
    ensures Exact(Counted(width, max, f))
  {
    var items := (n: nat) => Times(f, n);
    CountExact(width, max);
    forall n: nat
      ensures Exact(items(n))
    {
      TimesExact(f, n);
    }
    ThenExact(CountF(width, max), items);
    MappedExact(Then(CountF(width, max), items), (p: (nat, seq<T>)) => p.1, (xs: seq<T>) => (|xs|, xs));
  }

  /** A buffer that must decode completely; whatever is wrong inside it is one error. */
  function Within<T>(outer: Format<seq<Byte>>, inner: Format<T>, error: WireError): Format<T> {
    Format(
      (x: T) => inner.fits(x) && outer.fits(inner.write(x)),
      (x: T) => outer.write(inner.write(x)),
      (s: seq<Byte>) =>
        match outer.read(s)
        case Err(e) => Err(e)
        case Ok((body, rest)) =>
          match DecodeAll(inner, body)
          case Err(e) => Err(error)
          case Ok(x) => Ok((x, rest)))
  }

  lemma WithinExact<T(!new)>(outer: Format<seq<Byte>>, inner: Format<T>, error: WireError)
    requires Exact(outer) && Exact(inner)
    ensures Exact(Within(outer, inner, error))
  {
    var h := Within(outer, inner, error);
    forall x: T, rest: seq<Byte> | h.fits(x)
      ensures h.read(h.write(x) + rest) == Ok((x, rest))
    {
      var body := inner.write(x);
      assert outer.read(outer.write(body) + rest) == Ok((body, rest));
      DecodeInvertsEncode(inner, x, body);
    }
    forall s: seq<Byte> | h.read(s).Ok?
      ensures h.fits(h.read(s).value.0) && s == h.write(h.read(s).value.0) + h.read(s).value.1
    {
      var (body, rest) := outer.read(s).value;
      DecodeInvertsEncode(inner, DecodeAll(inner, body).value, body);
    }
  }

  /** A length of `width` bytes, refused above `max` before the slice is taken, then that many bytes. */
  function Prefixed(width: nat, max: nat): Format<seq<Byte>> {
    Mapped(
      Then(CountF(width, max), (n: nat) => Raw(n)),
      (p: (nat, seq<Byte>)) => p.1,
      (b: seq<Byte>) => (|b|, b))
  }

  lemma PrefixedExact(width: nat, max: nat)
    ensures Exact(Prefixed(width, max))
  {
    var raw := (n: nat) => Raw(n);
    CountExact(width, max);
    forall n: nat
      ensures Exact(raw(n))
    {
      RawExact(n);
    }
    ThenExact(CountF(width, max), raw);
    MappedExact(Then(CountF(width, max), raw), (p: (nat, seq<Byte>)) => p.1, (b: seq<Byte>) => (|b|, b));
  }
}
