/**
 The pool of unconfirmed transactions (noct/core/src/mempool.rs): four fields kept in
 step by every operation, a relay floor, and a byte cap with cheapest-first eviction.
 */
module Mempools {
  import opened Types
  import opened Data
  import opened Oracles
  import opened Ledgers
  import opened Encoders
  import opened Chain

  datatype MempoolError =
    | AlreadyKnown
    | PoolConflict
    | Invalid(cause: ChainError)
    | PoolFull
    | FeeTooLow(required: U64)

  const MIN_FEE_PER_KB: U64 := 50_000_000
  const MAX_MEMPOOL_BYTES: nat := 32 * 1024 * 1024

  /** Fee per 1000 bytes. */
  function FeeRate(fee: U64, size: nat): nat {
    Min(fee * 1000, U64_MAX) / Max(size, 1)
  }

  lemma TimesMonotone(a: nat, b: nat, k: nat)
    requires a <= b
    ensures a * k <= b * k
  {
  }

  /** The rate is the thousandfold fee, as far as 64 bits hold it, shared out over the bytes and rounded down. */
  lemma {:induction false} RateIsPerByte(fee: U64, size: nat)
    requires size >= 1
    ensures FeeRate(fee, size) * size <= Min(1000 * fee, U64_MAX) < (FeeRate(fee, size) + 1) * size
  {
    var counted := Min(fee * 1000, U64_MAX);
    assert counted == counted / size * size + counted % size;
  }

  lemma {:induction false} QuotientOrder(low: nat, high: nat, small: nat, large: nat)
    requires low <= high && 1 <= small <= large
    ensures low / large <= high / small
  {
    var q, r := low / large, high / small;
    assert low == q * large + low % large && high == r * small + high % small;
    if q > r {
      TimesMonotone(r + 1, q, small);
      TimesMonotone(small, large, q);
      assert false;
    }
  }

  /** More bytes at the same fee never rate higher, a larger fee for the same bytes never lower. */
  lemma {:induction false} RateOrders(low: U64, high: U64, small: nat, large: nat)
    requires low <= high && small <= large
    ensures FeeRate(high, large) <= FeeRate(high, small) && FeeRate(low, large) <= FeeRate(high, large)
  {
    QuotientOrder(Min(high * 1000, U64_MAX), Min(high * 1000, U64_MAX), Max(small, 1), Max(large, 1));
    QuotientOrder(Min(low * 1000, U64_MAX), Min(high * 1000, U64_MAX), Max(large, 1), Max(large, 1));
  }

  lemma Swapped(a: nat, b: nat, c: nat)
    ensures a * b * c == a * c * b
  {
  }

  lemma {:induction false} LowerQuotient(a: nat, n: nat, b: nat, m: nat)
    requires n >= 1 && m >= 1 && a / n < b / m
    ensures a * m < b * n
  {
    var q, r := a / n, b / m;
    assert a == q * n + a % n && b == r * m + b % m;
    TimesMonotone(q + 1, r, n);
    TimesMonotone(a + 1, r * n, m);
    Swapped(r, n, m);
    TimesMonotone(r * m, b, n);
  }

  /** Whoever rates lower pays less for each byte, if its fee is one that the rate counts in full. */
  lemma {:induction false} LowerRatePaysLess(fee: U64, size: nat, fee': U64, size': nat)
    requires size >= 1 && size' >= 1 && FeeRate(fee, size) < FeeRate(fee', size')
    ensures Min(1000 * fee, U64_MAX) * size' < Min(1000 * fee', U64_MAX) * size
    ensures 1000 * fee <= U64_MAX ==> fee * size' < fee' * size
  {
    LowerQuotient(Min(fee * 1000, U64_MAX), size, Min(fee' * 1000, U64_MAX), size');
    if 1000 * fee <= U64_MAX {
      TimesMonotone(Min(fee' * 1000, U64_MAX), fee' * 1000, size);
      Swapped(fee, 1000, size');
      Swapped(fee', 1000, size);
    }
  }

  /** A larger fee is not counted in full: 90 times the fee for each byte may rate lower. */
  lemma HugeFeesRateTooLow()
    ensures FeeRate(U64_MAX, 10) < FeeRate(20_000_000_000_000_000, 1)
    ensures U64_MAX * 1 > 90 * 20_000_000_000_000_000 * 10
  {
  }

  /** The least a transaction of this size must pay, rounded up. */
  function MinFee(size: nat): U64 {
    SaturatingAdd(Min(MIN_FEE_PER_KB * size, U64_MAX), 999) / 1000
  }

  /** The floor is 50,000,000 per 1000 bytes, rounded up, until the product no longer fits. */
  lemma MinFeeRoundsUp(size: nat)
    ensures 50_000_000 * size + 999 <= U64_MAX ==>
              50_000_000 * size <= MinFee(size) * 1000 < 50_000_000 * size + 1000
    ensures 50_000_000 * size + 999 > U64_MAX ==>
              MinFee(size) * 1000 <= U64_MAX < MinFee(size) * 1000 + 1000
  {
  }

  /** How many bytes a transaction encodes to. */
  type Measure = Transaction -> nat

  predicate Look(tx: Transaction) { true }

  /** The measure is the length of the wire encoding. */
  ghost predicate Measures(size: Measure) {
    forall tx: Transaction {:trigger Look(tx)} :: Look(tx) ==> size(tx) == |TxBytes(tx)|
  }

  function Rate(size: Measure, tx: Transaction): nat {
    FeeRate(tx.fee, size(tx))
  }

  type Pooled = map<Bytes32, Transaction>

  // --- totals over a pool --------------------------------------------------

  /** Sizes added up over a set of hashes, in any order. */
  ghost function Sum(w: Bytes32 -> nat, keys: set<Bytes32>): nat
    decreases |keys|
  {
    if keys == {} then 0
    else
      var k :| k in keys;
      w(k) + Sum(w, keys - {k})
  }

  lemma {:induction false} SumWithout(w: Bytes32 -> nat, keys: set<Bytes32>, k: Bytes32)
    requires k in keys
    ensures Sum(w, keys) == w(k) + Sum(w, keys - {k})
    decreases |keys|
  {
    var g :| g in keys && Sum(w, keys) == w(g) + Sum(w, keys - {g});
    if g != k {
      SumWithout(w, keys - {g}, k);
      SumWithout(w, keys - {k}, g);
      assert keys - {g} - {k} == keys - {k} - {g};
    }
  }

  lemma SumWith(w: Bytes32 -> nat, keys: set<Bytes32>, k: Bytes32)
    requires k !in keys
    ensures Sum(w, keys + {k}) == Sum(w, keys) + w(k)
  {
    SumWithout(w, keys + {k}, k);
    assert keys + {k} - {k} == keys;
  }

  lemma {:induction false} SumSplits(w: Bytes32 -> nat, keys: set<Bytes32>, part: set<Bytes32>)
    requires part <= keys
    ensures Sum(w, keys) == Sum(w, part) + Sum(w, keys - part)
    decreases |part|
  {
    if part == {} {
      assert keys - part == keys;
    } else {
      var k :| k in part;
      SumSplits(w, keys, part - {k});
      SumWithout(w, part, k);
      SumWithout(w, keys - (part - {k}), k);
      assert keys - (part - {k}) - {k} == keys - part;
    }
  }

  lemma {:induction false} SumSame(w: Bytes32 -> nat, w': Bytes32 -> nat, keys: set<Bytes32>)
    requires forall k :: k in keys ==> w(k) == w'(k)
    ensures Sum(w, keys) == Sum(w', keys)
    decreases |keys|
  {
    if keys != {} {
      var k :| k in keys;
      SumSame(w, w', keys - {k});
      SumWithout(w, keys, k);
      SumWithout(w', keys, k);
    }
  }

  function Weight(size: Measure, p: Pooled): Bytes32 -> nat {
    (h: Bytes32) => if h in p then size(p[h]) else 0
  }

  ghost function TotalSize(size: Measure, p: Pooled): nat {
    Sum(Weight(size, p), p.Keys)
  }

  /** The bytes of the transactions named. */
  ghost function Freed(size: Measure, p: Pooled, victims: set<Bytes32>): nat {
    Sum(Weight(size, p), victims)
  }

  lemma TotalAfter(size: Measure, p: Pooled, gone: set<Bytes32>)
    requires gone <= p.Keys
    ensures TotalSize(size, p - gone) == TotalSize(size, p) - Freed(size, p, gone)
  {
    SumSplits(Weight(size, p), p.Keys, gone);
    assert (p - gone).Keys == p.Keys - gone;
    SumSame(Weight(size, p - gone), Weight(size, p), p.Keys - gone);
  }

  lemma TotalWith(size: Measure, p: Pooled, h: Bytes32, tx: Transaction)
    requires h !in p
    ensures TotalSize(size, p[h := tx]) == TotalSize(size, p) + size(tx)
  {
    var q := p[h := tx];
    assert q.Keys == p.Keys + {h};
    SumWith(Weight(size, q), p.Keys, h);
    SumSame(Weight(size, q), Weight(size, p), p.Keys);
  }

  lemma FreedOne(size: Measure, p: Pooled, victims: set<Bytes32>, h: Bytes32)
    requires h in p && h !in victims
    ensures Freed(size, p, victims + {h}) == Freed(size, p, victims) + size(p[h])
  {
    SumWith(Weight(size, p), victims, h);
  }

  lemma FreedMonotone(size: Measure, p: Pooled, small: set<Bytes32>, large: set<Bytes32>)
    requires small <= large
    ensures Freed(size, p, small) <= Freed(size, p, large)
  {
    SumSplits(Weight(size, p), large, small);
  }

  // --- what admission decides ----------------------------------------------

  ghost predicate Claimed(p: Pooled, images: seq<Bytes32>) {
    exists h, image :: h in p && image in images && image in p[h].KeyImages()
  }

  function Cheaper(size: Measure, p: Pooled, rate: nat): set<Bytes32> {
    set h | h in p && Rate(size, p[h]) < rate
  }

  /** Even without every strictly cheaper transaction there is no room. */
  ghost predicate NoRoom(size: Measure, p: Pooled, tx: Transaction) {
    TotalSize(size, p) - Freed(size, p, Cheaper(size, p, Rate(size, tx))) + size(tx) > MAX_MEMPOOL_BYTES
  }

  /** The verdict of `add`, in the order the program checks; `judged` is what the chain says of the transaction. */
  ghost function AddVerdict(o: Crypto, size: Measure, judged: Option<ChainError>, p: Pooled, tx: Transaction)
    : Result<Bytes32, MempoolError>
  {
    if o.txHash(tx) in p then Err(AlreadyKnown)
    else if Claimed(p, tx.KeyImages()) then Err(PoolConflict)
    else if tx.fee < MinFee(size(tx)) then Err(FeeTooLow(MinFee(size(tx))))
    else if judged.Some? then Err(Invalid(judged.value))
    else if NoRoom(size, p, tx) then Err(PoolFull)
    else Ok(o.txHash(tx))
  }

  /**
   What an admission may throw out: only what pays strictly less than the newcomer, nothing
   dearer than what stays, enough to make room, and not one transaction more than enough.
   */
  ghost predicate Eviction(size: Measure, p: Pooled, victims: set<Bytes32>, tx: Transaction) {
    && victims <= p.Keys
    && (forall v :: v in victims ==> Rate(size, p[v]) < Rate(size, tx))
    && (forall v, u :: v in victims && u in p && u !in victims ==> Rate(size, p[v]) <= Rate(size, p[u]))
    && TotalSize(size, p) - Freed(size, p, victims) + size(tx) <= MAX_MEMPOOL_BYTES
    && (victims != {} ==>
          exists last :: last in victims && (forall v :: v in victims ==> Rate(size, p[v]) <= Rate(size, p[last]))
            && TotalSize(size, p) - Freed(size, p, victims - {last}) + size(tx) > MAX_MEMPOOL_BYTES)
  }

  /** Every victim pays less for each byte than the newcomer, huge fees aside. */
  ghost predicate Outbid(size: Measure, p: Pooled, victims: set<Bytes32>, tx: Transaction) {
    forall v :: v in victims ==>
      v in p && (1000 * p[v].fee <= U64_MAX ==> p[v].fee * Max(size(tx), 1) < tx.fee * Max(size(p[v]), 1))
  }

  lemma {:induction false} VictimsAreOutbid(size: Measure, p: Pooled, victims: set<Bytes32>, tx: Transaction)
    requires Eviction(size, p, victims, tx)
    ensures Outbid(size, p, victims, tx)
  {
    forall v | v in victims
      ensures 1000 * p[v].fee <= U64_MAX ==> p[v].fee * Max(size(tx), 1) < tx.fee * Max(size(p[v]), 1)
    {
      LowerRatePaysLess(p[v].fee, Max(size(p[v]), 1), tx.fee, Max(size(tx), 1));
    }
  }

  // --- the pool ------------------------------------------------------------

  /** Each image of a pooled transaction is claimed by it, and nothing else is claimed. */
  ghost predicate Indexes(claimed: map<Bytes32, Bytes32>, p: Pooled) {
    && (forall image :: image in claimed ==> claimed[image] in p && image in p[claimed[image]].KeyImages())
    && (forall h, image :: h in p && image in p[h].KeyImages() ==> image in claimed && claimed[image] == h)
  }

  /** No image belongs to two pooled transactions. */
  lemma ImagesAreDisjoint(claimed: map<Bytes32, Bytes32>, p: Pooled, h: Bytes32, g: Bytes32, image: Bytes32)
    requires Indexes(claimed, p) && h in p && g in p
    requires image in p[h].KeyImages() && image in p[g].KeyImages()
    ensures h == g
  {
    assert claimed[image] == h && claimed[image] == g;
  }

  /** Every pooled transaction is filed under its hash and pays at least the floor. */
  ghost predicate Filed(o: Crypto, size: Measure, p: Pooled) {
    forall h :: h in p ==> o.txHash(p[h]) == h && p[h].fee >= MinFee(size(p[h]))
  }

  /** The sizes and their total are those of the pooled transactions. */
  ghost predicate Accounts(size: Measure, p: Pooled, sizes: map<Bytes32, nat>, bytes: nat) {
    && sizes.Keys == p.Keys
    && (forall h :: h in p ==> sizes[h] == size(p[h]))
    && bytes == TotalSize(size, p)
  }

  ghost predicate InStep(
    o: Crypto, size: Measure, p: Pooled, claimed: map<Bytes32, Bytes32>, sizes: map<Bytes32, nat>, bytes: nat) {
    Accounts(size, p, sizes, bytes) && Indexes(claimed, p) && Filed(o, size, p)
  }

  lemma FewerAccounts(size: Measure, p: Pooled, sizes: map<Bytes32, nat>, bytes: nat, h: Bytes32)
    requires Accounts(size, p, sizes, bytes) && h in p
    ensures bytes >= sizes[h] && Accounts(size, p - {h}, sizes - {h}, bytes - sizes[h])
  {
    TotalAfter(size, p, {h});
    FreedOne(size, p, {}, h);
    assert {} + {h} == {h};
  }

  lemma MoreAccounts(size: Measure, p: Pooled, sizes: map<Bytes32, nat>, bytes: nat, h: Bytes32, tx: Transaction)
    requires Accounts(size, p, sizes, bytes) && h !in p
    ensures Accounts(size, p[h := tx], sizes[h := size(tx)], bytes + size(tx))
  {
    TotalWith(size, p, h, tx);
  }

  lemma FewerIndexes(claimed: map<Bytes32, Bytes32>, p: Pooled, h: Bytes32)
    requires Indexes(claimed, p) && h in p
    ensures Indexes(claimed - SetOf(p[h].KeyImages()), p - {h})
  {
    var left, q := claimed - SetOf(p[h].KeyImages()), p - {h};
    forall g, image | g in q && image in q[g].KeyImages()
      ensures image in left && left[image] == g
    {
      assert claimed[image] == g;
      if image in p[h].KeyImages() {
        ImagesAreDisjoint(claimed, p, g, h, image);
      }
    }
    forall image | image in left
      ensures left[image] in q && image in q[left[image]].KeyImages()
    {
      assert claimed[image] in p && image in p[claimed[image]].KeyImages();
    }
  }

  /** Claims of a newcomer whose images nobody claims yet. */
  function Claiming(images: seq<Bytes32>, h: Bytes32): map<Bytes32, Bytes32> {
    map image | image in images :: h
  }

  lemma {:induction false} MoreIndexes(claimed: map<Bytes32, Bytes32>, p: Pooled, h: Bytes32, tx: Transaction)
    requires Indexes(claimed, p) && h !in p && !Claimed(p, tx.KeyImages())
    ensures Indexes(claimed + Claiming(tx.KeyImages(), h), p[h := tx])
  {
    var more, q := claimed + Claiming(tx.KeyImages(), h), p[h := tx];
    forall g, image | g in q && image in q[g].KeyImages()
      ensures image in more && more[image] == g
    {
    }
    forall image | image in more
      ensures more[image] in q && image in q[more[image]].KeyImages()
    {
    }
  }

  // --- cheapest first ------------------------------------------------------

  /** A pooled transaction's hash and rate, as the eviction loop sees it. */
  datatype Victim = Victim(hash: Bytes32, rate: nat)

  predicate SortedByRate(vs: seq<Victim>) {
    forall i, j {:trigger vs[i].rate, vs[j].rate} :: 0 <= i < j < |vs| ==> vs[i].rate <= vs[j].rate
  }

  predicate HashesDiffer(vs: seq<Victim>) {
    forall i, j {:trigger vs[i].hash, vs[j].hash} :: 0 <= i < j < |vs| ==> vs[i].hash != vs[j].hash
  }

  function Hashes(vs: seq<Victim>): set<Bytes32> {
    set v | v in vs :: v.hash
  }

  /** Keeps a sorted list sorted; equal rates stay in order of arrival. */
  function Inserted(v: Victim, vs: seq<Victim>): (r: seq<Victim>)
    ensures |r| == |vs| + 1
  {
    if vs == [] || v.rate < vs[0].rate then [v] + vs else [vs[0]] + Inserted(v, vs[1..])
  }

  lemma {:induction false} InsertedMembers(v: Victim, vs: seq<Victim>)
    ensures forall u :: u in Inserted(v, vs) <==> u in vs || u == v
  {
    if vs == [] || v.rate < vs[0].rate {
    } else {
      InsertedMembers(v, vs[1..]);
      assert vs == [vs[0]] + vs[1..];
    }
  }

  lemma InsertedHashes(v: Victim, vs: seq<Victim>)
    ensures Hashes(Inserted(v, vs)) == Hashes(vs) + {v.hash}
  {
    InsertedMembers(v, vs);
  }

  lemma {:induction false} InsertedSorted(v: Victim, vs: seq<Victim>)
    requires SortedByRate(vs)
    ensures SortedByRate(Inserted(v, vs))
  {
    if vs == [] || v.rate < vs[0].rate {
    } else {
      InsertedSorted(v, vs[1..]);
      var tail := Inserted(v, vs[1..]);
      InsertedMembers(v, vs[1..]);
      forall j | 0 <= j < |tail|
        ensures vs[0].rate <= tail[j].rate
      {
        assert tail[j] in vs[1..] || tail[j] == v;
      }
    }
  }

  lemma {:induction false} InsertedDiffers(v: Victim, vs: seq<Victim>)
    requires HashesDiffer(vs) && v.hash !in Hashes(vs)
    ensures HashesDiffer(Inserted(v, vs))
  {
    if vs == [] || v.rate < vs[0].rate {
      assert forall j :: 0 <= j < |vs| ==> vs[j].hash in Hashes(vs);
    } else {
      assert forall u :: u in vs[1..] ==> u in vs;
      InsertedDiffers(v, vs[1..]);
      var tail := Inserted(v, vs[1..]);
      InsertedMembers(v, vs[1..]);
      forall j | 0 <= j < |tail|
        ensures vs[0].hash != tail[j].hash
      {
        assert tail[j] in vs[1..] || tail[j] == v;
        assert vs[0].hash in Hashes(vs);
      }
    }
  }

  /** The named transactions with their rates, cheapest first. */
  ghost predicate Ranking(size: Measure, p: Pooled, keys: set<Bytes32>, vs: seq<Victim>) {
    && SortedByRate(vs) && HashesDiffer(vs) && Hashes(vs) == keys
    && forall v :: v in vs ==> v.hash in p && v.rate == Rate(size, p[v.hash])
  }

  lemma {:induction false} RankingGrows(size: Measure, p: Pooled, keys: set<Bytes32>, vs: seq<Victim>, v: Victim)
    requires Ranking(size, p, keys, vs) && v.hash !in keys
    requires v.hash in p && v.rate == Rate(size, p[v.hash])
    ensures Ranking(size, p, keys + {v.hash}, Inserted(v, vs))
  {
    InsertedSorted(v, vs);
    InsertedDiffers(v, vs);
    InsertedHashes(v, vs);
    InsertedMembers(v, vs);
  }

  predicate AllBelow(vs: seq<Victim>, rate: nat) {
    forall j :: 0 <= j < |vs| ==> vs[j].rate < rate
  }

  lemma NextHash(vs: seq<Victim>, i: nat)
    requires HashesDiffer(vs) && i < |vs|
    ensures vs[i].hash !in Hashes(vs[..i])
    ensures Hashes(vs[..i + 1]) == Hashes(vs[..i]) + {vs[i].hash}
  {
    assert vs[..i + 1] == vs[..i] + [vs[i]];
  }

  lemma FreedNext(size: Measure, p: Pooled, vs: seq<Victim>, i: nat)
    requires Ranking(size, p, p.Keys, vs) && i < |vs|
    ensures Freed(size, p, Hashes(vs[..i + 1])) == Freed(size, p, Hashes(vs[..i])) + size(p[vs[i].hash])
  {
    NextHash(vs, i);
    FreedOne(size, p, Hashes(vs[..i]), vs[i].hash);
  }

  lemma Position(vs: seq<Victim>, h: Bytes32) returns (j: nat)
    requires h in Hashes(vs)
    ensures j < |vs| && vs[j].hash == h
  {
    var v :| v in vs && v.hash == h;
    j :| 0 <= j < |vs| && vs[j] == v;
  }

  lemma PrefixIsCheaper(size: Measure, p: Pooled, vs: seq<Victim>, i: nat, rate: nat)
    requires Ranking(size, p, p.Keys, vs) && i <= |vs| && AllBelow(vs[..i], rate)
    ensures Hashes(vs[..i]) <= Cheaper(size, p, rate)
    ensures i == |vs| || vs[i].rate >= rate ==> Hashes(vs[..i]) == Cheaper(size, p, rate)
  {
    if i == |vs| || vs[i].rate >= rate {
      forall h | h in Cheaper(size, p, rate)
        ensures h in Hashes(vs[..i])
      {
        var j := Position(vs, h);
        assert vs[j] in vs[..i];
      }
    }
  }

  lemma InPrefix(vs: seq<Victim>, i: nat, k: nat)
    requires i <= |vs| && k < |vs|
    ensures k < i ==> vs[k].hash in Hashes(vs[..i])
  {
    if k < i {
      assert vs[..i][k] in vs[..i];
    }
  }

  /** What comes after a prefix pays at least as much as anything in it. */
  lemma PrefixIsCheapest(size: Measure, p: Pooled, vs: seq<Victim>, i: nat, h: Bytes32, u: Bytes32)
    requires Ranking(size, p, p.Keys, vs) && i <= |vs|
    requires h in Hashes(vs[..i]) && u in p && u !in Hashes(vs[..i])
    ensures h in p && Rate(size, p[h]) <= Rate(size, p[u])
  {
    var j := Position(vs[..i], h);
    var k := Position(vs, u);
    InPrefix(vs, i, k);
  }

  /** The last one taken is the dearest taken, and leaving it out leaves the shorter prefix. */
  lemma LastOfPrefix(size: Measure, p: Pooled, vs: seq<Victim>, i: nat)
    requires Ranking(size, p, p.Keys, vs) && 0 < i <= |vs|
    ensures var last := vs[i - 1].hash;
            && last in Hashes(vs[..i]) && Hashes(vs[..i]) - {last} == Hashes(vs[..i - 1])
            && forall h :: h in Hashes(vs[..i]) ==> h in p && Rate(size, p[h]) <= Rate(size, p[last])
  {
    var last := vs[i - 1].hash;
    NextHash(vs, i - 1);
    forall h | h in Hashes(vs[..i])
      ensures h in p && Rate(size, p[h]) <= Rate(size, p[last])
    {
      var j := Position(vs[..i], h);
    }
  }

  /** A prefix that makes room just barely is a lawful eviction. */
  lemma {:induction false} PrefixEvicts(size: Measure, p: Pooled, vs: seq<Victim>, i: nat, tx: Transaction)
    requires Ranking(size, p, p.Keys, vs) && i <= |vs| && AllBelow(vs[..i], Rate(size, tx))
    requires TotalSize(size, p) - Freed(size, p, Hashes(vs[..i])) + size(tx) <= MAX_MEMPOOL_BYTES
    requires i > 0 ==> TotalSize(size, p) - Freed(size, p, Hashes(vs[..i - 1])) + size(tx) > MAX_MEMPOOL_BYTES
    ensures Eviction(size, p, Hashes(vs[..i]), tx)
  {
    var victims := Hashes(vs[..i]);
    PrefixIsCheaper(size, p, vs, i, Rate(size, tx));
    forall h, u | h in victims && u in p && u !in victims
      ensures Rate(size, p[h]) <= Rate(size, p[u])
    {
      PrefixIsCheapest(size, p, vs, i, h, u);
    }
    if i > 0 {
      LastOfPrefix(size, p, vs, i);
    }
  }

  lemma {:induction false} BlockImagesSnoc(txs: seq<Transaction>, i: nat)
    requires i < |txs|
    ensures BlockImages(txs[..i + 1]) == BlockImages(txs[..i]) + txs[i].KeyImages()
  {
    if i == 0 {
      assert txs[..1][1..] == [];
    } else {
      BlockImagesSnoc(txs[1..], i - 1);
      assert txs[..i + 1][1..] == txs[1..][..i];
      assert txs[..i][1..] == txs[1..][..i - 1];
    }
  }

  /** `PoolFull` is not about the order of eviction: no choice of strictly cheaper transactions makes room. */
  lemma NoRoomWhateverGoes(size: Measure, p: Pooled, tx: Transaction)
    ensures NoRoom(size, p, tx) <==>
              forall victims :: victims <= Cheaper(size, p, Rate(size, tx)) ==>
                TotalSize(size, p) - Freed(size, p, victims) + size(tx) > MAX_MEMPOOL_BYTES
  {
    forall victims | victims <= Cheaper(size, p, Rate(size, tx))
      ensures Freed(size, p, victims) <= Freed(size, p, Cheaper(size, p, Rate(size, tx)))
    {
      FreedMonotone(size, p, victims, Cheaper(size, p, Rate(size, tx)));
    }
  }

  lemma SetOfSnoc(xs: seq<Bytes32>, x: Bytes32)
    ensures SetOf(xs + [x]) == SetOf(xs) + {x}
  {
  }

  // The eviction loop on the victims list and the size column alone.

  predicate Listed(sizes: map<Bytes32, nat>, vs: seq<Victim>) {
    forall i :: 0 <= i < |vs| ==> vs[i].hash in sizes
  }

  function HashList(vs: seq<Victim>): seq<Bytes32> {
    if vs == [] then [] else HashList(vs[..|vs| - 1]) + [vs[|vs| - 1].hash]
  }

  function SizeSum(sizes: map<Bytes32, nat>, vs: seq<Victim>): nat
    requires Listed(sizes, vs)
  {
    if vs == [] then 0 else SizeSum(sizes, vs[..|vs| - 1]) + sizes[vs[|vs| - 1].hash]
  }

  /** The loop went past the first k: each pays less, and without it there was no room yet. */
  predicate Continued(
    sizes: map<Bytes32, nat>, bytes: nat, vs: seq<Victim>, incoming: nat, n: nat, k: nat)
    requires Listed(sizes, vs)
  {
    && k <= |vs|
    && forall j :: 0 <= j < k ==> vs[j].rate < incoming && bytes + n - SizeSum(sizes, vs[..j]) > MAX_MEMPOOL_BYTES
  }

  predicate Stopped(
    sizes: map<Bytes32, nat>, bytes: nat, vs: seq<Victim>, incoming: nat, n: nat, k: nat)
    requires Listed(sizes, vs)
  {
    && Continued(sizes, bytes, vs, incoming, n, k)
    && (k == |vs| || bytes + n - SizeSum(sizes, vs[..k]) <= MAX_MEMPOOL_BYTES || vs[k].rate >= incoming)
  }

  /** What can be freed is part of what is there. */
  lemma FreedBounds(size: Measure, p: Pooled, rate: nat)
    ensures Freed(size, p, Cheaper(size, p, rate)) <= TotalSize(size, p)
    ensures Freed(size, p, {}) == 0
  {
    FreedMonotone(size, p, Cheaper(size, p, rate), p.Keys);
  }

  /** The first `k` of a ranking, all below a rate, and what they free. */
  ghost predicate Taken(
    size: Measure, p: Pooled, vs: seq<Victim>, k: nat, rate: nat, taken: set<Bytes32>, freed: nat) {
    && k <= |vs| && AllBelow(vs[..k], rate)
    && taken == Hashes(vs[..k]) && freed == Freed(size, p, Hashes(vs[..k]))
  }

  lemma MinusSnoc(p: Pooled, xs: seq<Bytes32>, x: Bytes32)
    ensures p - SetOf(xs + [x]) == p - SetOf(xs) - {x}
  {
  }

  lemma NothingTaken(size: Measure, p: Pooled, vs: seq<Victim>, rate: nat)
    ensures Taken(size, p, vs, 0, rate, SetOf([]), 0)
  {
    FreedBounds(size, p, rate);
    assert vs[..0] == [] && Hashes([]) == {};
  }

  lemma {:induction false} TakenNext(size: Measure, p: Pooled, vs: seq<Victim>, k: nat, rate: nat,
      taken: set<Bytes32>, freed: nat)
    requires Ranking(size, p, p.Keys, vs) && Taken(size, p, vs, k, rate, taken, freed)
    requires k < |vs| && vs[k].rate < rate
    ensures vs[k] in vs && Taken(size, p, vs, k + 1, rate, taken + {vs[k].hash}, freed + size(p[vs[k].hash]))
  {
    FreedNext(size, p, vs, k);
    NextHash(vs, k);
    assert vs[..k + 1] == vs[..k] + [vs[k]];
  }

  lemma RankedAreListed(size: Measure, p: Pooled, sizes: map<Bytes32, nat>, bytes: nat, vs: seq<Victim>)
    requires Accounts(size, p, sizes, bytes) && Ranking(size, p, p.Keys, vs)
    ensures Listed(sizes, vs)
  {
    forall i | 0 <= i < |vs|
      ensures vs[i].hash in sizes
    {
      assert vs[i] in vs;
      assert vs[i].hash in sizes.Keys;
    }
  }

  lemma CollectedSnoc(sizes: map<Bytes32, nat>, vs: seq<Victim>, i: nat)
    requires Listed(sizes, vs) && i < |vs|
    ensures SetOf(HashList(vs[..i + 1])) == SetOf(HashList(vs[..i])) + {vs[i].hash}
    ensures SizeSum(sizes, vs[..i + 1]) == SizeSum(sizes, vs[..i]) + sizes[vs[i].hash]
  {
    assert vs[..i + 1][..i] == vs[..i];
    SetOfSnoc(HashList(vs[..i]), vs[i].hash);
  }

  /** What the loop has collected is the prefix it went past. */
  lemma {:induction false} CollectedIsTaken(
    size: Measure, p: Pooled, sizes: map<Bytes32, nat>, bytes: nat, vs: seq<Victim>, incoming: nat, n: nat, k: nat)
    requires Accounts(size, p, sizes, bytes) && Ranking(size, p, p.Keys, vs) && Listed(sizes, vs)
    requires Continued(sizes, bytes, vs, incoming, n, k)
    ensures Taken(size, p, vs, k, incoming, SetOf(HashList(vs[..k])), SizeSum(sizes, vs[..k]))
  {
    if k == 0 {
      NothingTaken(size, p, vs, incoming);
    } else {
      var i := k - 1;
      CollectedIsTaken(size, p, sizes, bytes, vs, incoming, n, i);
      CollectedSnoc(sizes, vs, i);
      TakenNext(size, p, vs, i, incoming, SetOf(HashList(vs[..i])), SizeSum(sizes, vs[..i]));
      assert vs[i].hash in p;
    }
  }

  /** The last one taken was needed. */
  lemma {:induction false} LastWasNeeded(
    size: Measure, p: Pooled, sizes: map<Bytes32, nat>, bytes: nat, vs: seq<Victim>, incoming: nat, n: nat, k: nat)
    requires Accounts(size, p, sizes, bytes) && Ranking(size, p, p.Keys, vs) && Listed(sizes, vs)
    requires Continued(sizes, bytes, vs, incoming, n, k) && k > 0
    ensures bytes + n - Freed(size, p, Hashes(vs[..k - 1])) > MAX_MEMPOOL_BYTES
  {
    var i := k - 1;
    CollectedIsTaken(size, p, sizes, bytes, vs, incoming, n, i);
    assert bytes + n - SizeSum(sizes, vs[..i]) > MAX_MEMPOOL_BYTES;
  }

  lemma EnoughOrNot(
    size: Measure, p: Pooled, vs: seq<Victim>, k: nat, tx: Transaction, taken: set<Bytes32>, freed: nat)
    requires Ranking(size, p, p.Keys, vs) && Taken(size, p, vs, k, Rate(size, tx), taken, freed)
    requires k > 0 ==> TotalSize(size, p) + size(tx) - Freed(size, p, Hashes(vs[..k - 1])) > MAX_MEMPOOL_BYTES
    requires k == |vs| || TotalSize(size, p) + size(tx) - freed <= MAX_MEMPOOL_BYTES || vs[k].rate >= Rate(size, tx)
    ensures TotalSize(size, p) + size(tx) - freed <= MAX_MEMPOOL_BYTES <==> !NoRoom(size, p, tx)
    ensures TotalSize(size, p) + size(tx) - freed <= MAX_MEMPOOL_BYTES ==> Eviction(size, p, taken, tx)
  {
    PrefixIsCheaper(size, p, vs, k, Rate(size, tx));
    FreedMonotone(size, p, Hashes(vs[..k]), Cheaper(size, p, Rate(size, tx)));
    if TotalSize(size, p) + size(tx) - freed <= MAX_MEMPOOL_BYTES {
      PrefixEvicts(size, p, vs, k, tx);
    }
  }

  method SpentBy(blockTxs: seq<Transaction>) returns (spent: set<Bytes32>)
    ensures spent == SetOf(BlockImages(blockTxs))
  {
    spent := {};
    for i := 0 to |blockTxs|
      invariant spent == SetOf(BlockImages(blockTxs[..i]))
    {
      BlockImagesSnoc(blockTxs, i);
      spent := spent + SetOf(blockTxs[i].KeyImages());
    }
    assert blockTxs[..|blockTxs|] == blockTxs;
  }

  class Mempool {
    var txs: Pooled
    var claimedImages: map<Bytes32, Bytes32>
    var sizes: map<Bytes32, nat>
    var bytes: nat

    ghost predicate Valid(o: Crypto, size: Measure)
      reads this
    {
      InStep(o, size, txs, claimedImages, sizes, bytes) && bytes <= MAX_MEMPOOL_BYTES
    }

    constructor (ghost o: Crypto, ghost size: Measure)
      ensures Valid(o, size) && txs == map[]
    {
      txs, claimedImages, sizes, bytes := map[], map[], map[], 0;
    }

    method Unclaim(images: seq<Bytes32>)
      modifies this`claimedImages
      ensures claimedImages == old(claimedImages) - SetOf(images)
    {
      for i := 0 to |images|
        invariant claimedImages == old(claimedImages) - SetOf(images[..i])
      {
        assert images[..i + 1] == images[..i] + [images[i]];
        claimedImages := claimedImages - {images[i]};
      }
      assert images[..|images|] == images;
    }

    method Claim(images: seq<Bytes32>, hash: Bytes32)
      modifies this`claimedImages
      ensures claimedImages == old(claimedImages) + Claiming(images, hash)
    {
      for i := 0 to |images|
        invariant claimedImages == old(claimedImages) + Claiming(images[..i], hash)
      {
        assert images[..i + 1] == images[..i] + [images[i]];
        claimedImages := claimedImages[images[i] := hash];
      }
      assert images[..|images|] == images;
    }

    /** Every removal runs through here. */
    method Remove(ghost o: Crypto, ghost size: Measure, hash: Bytes32)
      requires Valid(o, size)
      modifies this
      ensures Valid(o, size) && txs == old(txs) - {hash}
    {
      if hash in txs {
        FewerIndexes(claimedImages, txs, hash);
        FewerAccounts(size, txs, sizes, bytes, hash);
        Unclaim(txs[hash].KeyImages());
        txs := txs - {hash};
      }
      if hash in sizes {
        bytes := SaturatingSub(bytes, sizes[hash]);
        sizes := sizes - {hash};
      }
      assert hash !in old(txs) ==> old(txs) - {hash} == old(txs);
    }

    /** Removes the doomed one by one. */
    method RemoveAll(ghost o: Crypto, ghost size: Measure, doomed: seq<Bytes32>)
      requires Valid(o, size)
      modifies this
      ensures Valid(o, size) && txs == old(txs) - SetOf(doomed)
    {
      for i := 0 to |doomed|
        invariant Valid(o, size) && txs == old(txs) - SetOf(doomed[..i])
      {
        assert doomed[..i + 1] == doomed[..i] + [doomed[i]];
        MinusSnoc(old(txs), doomed[..i], doomed[i]);
        Remove(o, size, doomed[i]);
      }
      assert doomed[..|doomed|] == doomed;
    }

    /** The pooled transactions with their rates, sorted; equal rates in any order. */
    method ByRate(ghost size: Measure) returns (victims: seq<Victim>)
      requires Accounts(size, txs, sizes, bytes)
      ensures Ranking(size, txs, txs.Keys, victims)
    {
      victims := [];
      var left := txs.Keys;
      ghost var done: set<Bytes32> := {};
      while left != {}
        invariant done !! left && done + left == txs.Keys
        invariant Ranking(size, txs, done, victims)
        decreases left
      {
        var h :| h in left;
        var v := Victim(h, FeeRate(txs[h].fee, sizes[h]));
        RankingGrows(size, txs, done, victims, v);
        victims := Inserted(v, victims);
        left, done := left - {h}, done + {h};
      }
    }

    /** The cheapest first, until the newcomer fits or the next pays as much as it does. */
    method Displace(victims: seq<Victim>, incoming: nat, n: nat)
      returns (evict: seq<Bytes32>, freed: nat, ghost k: nat)
      requires Listed(sizes, victims)
      ensures Stopped(sizes, bytes, victims, incoming, n, k)
      ensures evict == HashList(victims[..k]) && freed == SizeSum(sizes, victims[..k])
    {
      evict, freed, k := [], 0, 0;
      for i := 0 to |victims|
        invariant k == i
        invariant evict == HashList(victims[..i]) && freed == SizeSum(sizes, victims[..i])
        invariant Continued(sizes, bytes, victims, incoming, n, i)
      {
        if bytes + n - freed <= MAX_MEMPOOL_BYTES || victims[i].rate >= incoming {
          return;
        }
        assert victims[..i + 1][..i] == victims[..i];
        freed := freed + sizes[victims[i].hash];
        evict := evict + [victims[i].hash];
        k := k + 1;
      }
      assert victims[..|victims|] == victims;
    }

    /** Whether there is room for a newcomer, and what has to go for it. */
    method MakeRoom(ghost size: Measure, tx: Transaction, n: nat) returns (room: bool, evict: seq<Bytes32>)
      requires Accounts(size, txs, sizes, bytes) && n == size(tx)
      ensures room <==> !NoRoom(size, txs, tx)
      ensures room ==> Eviction(size, txs, SetOf(evict), tx) && Outbid(size, txs, SetOf(evict), tx)
    {
      evict := [];
      FreedBounds(size, txs, Rate(size, tx));
      if n > MAX_MEMPOOL_BYTES {
        return false, evict;
      }
      if bytes + n <= MAX_MEMPOOL_BYTES {
        assert SetOf(evict) == {};
        return true, evict;
      }
      var incoming := FeeRate(tx.fee, n);
      var victims := ByRate(size);
      var freed: nat;
      ghost var k: nat;
      RankedAreListed(size, txs, sizes, bytes, victims);
      evict, freed, k := Displace(victims, incoming, n);
      CollectedIsTaken(size, txs, sizes, bytes, victims, incoming, n, k);
      if k > 0 {
        LastWasNeeded(size, txs, sizes, bytes, victims, incoming, n, k);
      }
      room := bytes + n - freed <= MAX_MEMPOOL_BYTES;
      EnoughOrNot(size, txs, victims, k, tx, SetOf(evict), freed);
      if room {
        VictimsAreOutbid(size, txs, SetOf(evict), tx);
      }
    }

    /** The wire encoding's length. */
    method EncodedSize(ghost size: Measure, tx: Transaction) returns (n: nat)
      requires Measures(size)
      ensures n == size(tx)
    {
      var encoded := EncodeTransaction(tx);
      assert Look(tx);
      n := |encoded|;
    }

    method Conflicts(images: seq<Bytes32>) returns (conflict: bool)
      requires Indexes(claimedImages, txs)
      ensures conflict <==> Claimed(txs, images)
    {
      conflict := false;
      for i := 0 to |images|
        invariant forall j :: 0 <= j < i ==> images[j] !in claimedImages
      {
        if images[i] in claimedImages {
          var h := claimedImages[images[i]];
          assert h in txs && images[i] in images && images[i] in txs[h].KeyImages();
          return true;
        }
      }
    }

    method Insert(ghost o: Crypto, ghost size: Measure, hash: Bytes32, tx: Transaction, n: nat)
      requires Valid(o, size) && n == size(tx) && bytes + n <= MAX_MEMPOOL_BYTES
      requires hash == o.txHash(tx) && hash !in txs && tx.fee >= MinFee(n)
      requires !Claimed(txs, tx.KeyImages())
      modifies this
      ensures Valid(o, size) && txs == old(txs)[hash := tx]
    {
      MoreIndexes(claimedImages, txs, hash, tx);
      MoreAccounts(size, txs, sizes, bytes, hash, tx);
      Claim(tx.KeyImages(), hash);
      bytes := bytes + n;
      sizes := sizes[hash := n];
      txs := txs[hash := tx];
    }

    /** The last part of admission: a place under the cap, or none. */
    method Settle(ghost o: Crypto, ghost size: Measure, hash: Bytes32, tx: Transaction, n: nat)
      returns (r: Result<Bytes32, MempoolError>)
      requires Valid(o, size) && n == size(tx)
      requires hash == o.txHash(tx) && hash !in txs && tx.fee >= MinFee(n)
      requires !Claimed(txs, tx.KeyImages())
      modifies this
      ensures Valid(o, size)
      ensures r == if NoRoom(size, old(txs), tx) then Err(PoolFull) else Ok(hash)
      ensures r.Err? ==> unchanged(this)
      ensures r.Ok? ==> exists victims ::
                && Eviction(size, old(txs), victims, tx) && Outbid(size, old(txs), victims, tx)
                && txs == (old(txs) - victims)[hash := tx]
    {
      var room, evict := MakeRoom(size, tx, n);
      if !room {
        return Err(PoolFull);
      }
      TotalAfter(size, txs, SetOf(evict));
      RemoveAll(o, size, evict);
      Insert(o, size, hash, tx, n);
      r := Ok(hash);
    }

    /**
     Admission. The verdict is exactly `AddVerdict`; a refusal changes nothing; an admission
     puts the newcomer in and takes out one lawful set of victims.
     */
    method Add(o: Crypto, ghost size: Measure, chain: Blockchain, tx: Transaction)
      returns (r: Result<Bytes32, MempoolError>)
      requires Valid(o, size) && Measures(size) && chain.Valid()
      modifies this
      ensures Valid(o, size)
      ensures r == AddVerdict(o, size, TxVerdict(o, chain.State(), tx), old(txs), tx)
      ensures r.Err? ==> unchanged(this)
      ensures r.Ok? ==> exists victims ::
                && Eviction(size, old(txs), victims, tx) && Outbid(size, old(txs), victims, tx)
                && txs == (old(txs) - victims)[o.txHash(tx) := tx]
    {
      var hash := o.txHash(tx);
      if hash in txs {
        return Err(AlreadyKnown);
      }
      var conflict := Conflicts(tx.KeyImages());
      if conflict {
        return Err(PoolConflict);
      }
      var n := EncodedSize(size, tx);
      if tx.fee < MinFee(n) {
        return Err(FeeTooLow(MinFee(n)));
      }
      var judged := chain.ValidateTx(o, tx);
      if judged.Some? {
        return Err(Invalid(judged.value));
      }
      r := Settle(o, size, hash, tx, n);
    }

    /** The hashes of pooled transactions that fail a test, in any order. */
    method Doomed(keep: Transaction -> bool) returns (doomed: seq<Bytes32>)
      ensures SetOf(doomed) == set h | h in txs && !keep(txs[h])
    {
      doomed := [];
      var left := txs.Keys;
      while left != {}
        invariant left <= txs.Keys
        invariant SetOf(doomed) == set h | h in txs && h !in left && !keep(txs[h])
        decreases |left|
      {
        var h :| h in left;
        left := left - {h};
        if !keep(txs[h]) {
          assert SetOf(doomed + [h]) == SetOf(doomed) + {h};
          doomed := doomed + [h];
        }
      }
    }

    /** Drops what fails the test, and nothing else. */
    method Retain(ghost o: Crypto, ghost size: Measure, keep: Transaction -> bool)
      requires Valid(o, size)
      modifies this
      ensures Valid(o, size)
      ensures txs == map h | h in old(txs) && keep(old(txs)[h]) :: old(txs)[h]
    {
      var doomed := Doomed(keep);
      RemoveAll(o, size, doomed);
    }

    /** After a block: whatever shares an image with it goes, and nothing else. */
    method OnBlock(ghost o: Crypto, ghost size: Measure, blockTxs: seq<Transaction>)
      requires Valid(o, size)
      modifies this
      ensures Valid(o, size)
      ensures txs == map h | h in old(txs)
                && !Meets(old(txs)[h].KeyImages(), SetOf(BlockImages(blockTxs))) :: old(txs)[h]
    {
      var spent := SpentBy(blockTxs);
      Retain(o, size, (tx: Transaction) => !Meets(tx.KeyImages(), spent));
    }
  }
}
