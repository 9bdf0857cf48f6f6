/**
 Block ids (noct/core/src/block.rs): the layered Merkle loop, and what an id commits to.
 Hashing is one function from bytes to digests, and nothing is assumed about it: two
 different contents with the same id are shown to contain a collision.
 */
module Merkle {
  import opened Types
  import opened Data
  import opened LittleEndian
  import opened Formats
  import opened Wire
  import opened Encoders
  import opened WellFormed

  type Hash = seq<Byte> -> Bytes32

  /** Two different byte strings among those hashed have one digest. */
  ghost predicate Collision(h: Hash, hashed: set<seq<Byte>>) {
    exists p, q :: p in hashed && q in hashed && p != q && h(p) == h(q)
  }

  // --- the tree ------------------------------------------------------------

  function NodeBytes(a: Bytes32, b: Bytes32): seq<Byte> {
    ArrayOf(a) + ArrayOf(b)
  }

  /** Neighbours hashed in pairs; an odd last node moves up unchanged. */
  function NextLayer(h: Hash, layer: seq<Bytes32>): (next: seq<Bytes32>)
    ensures |next| == (|layer| + 1) / 2
  {
    if |layer| < 2 then layer else [h(NodeBytes(layer[0], layer[1]))] + NextLayer(h, layer[2..])
  }

  function Root(h: Hash, leaves: seq<Bytes32>): Bytes32
    decreases |leaves|
  {
    if leaves == [] then 0
    else if |leaves| == 1 then leaves[0]
    else Root(h, NextLayer(h, leaves))
  }

  lemma PairHashed(h: Hash, layer: seq<Bytes32>, next: seq<Bytes32>, i: nat)
    requires i + 1 < |layer|
    ensures next + NextLayer(h, layer[i..]) ==
              (next + [h(NodeBytes(layer[i], layer[i + 1]))]) + NextLayer(h, layer[i + 2..])
  {
    assert layer[i..][2..] == layer[i + 2..];
  }

  /** One pass of the inner loop, over chunks of two. */
  method HashPairs(h: Hash, layer: seq<Bytes32>) returns (next: seq<Bytes32>)
    ensures next == NextLayer(h, layer)
  {
    next := [];
    var i := 0;
    assert layer[0..] == layer && next + NextLayer(h, layer) == NextLayer(h, layer);
    while i < |layer|
      invariant 0 <= i <= |layer|
      invariant NextLayer(h, layer) == next + NextLayer(h, layer[i..])
      decreases |layer| - i
    {
      if i + 1 < |layer| {
        PairHashed(h, layer, next, i);
        next := next + [h(NodeBytes(layer[i], layer[i + 1]))];
        i := i + 2;
      } else {
        assert layer[i..] == [layer[i]];
        next := next + [layer[i]];
        i := |layer|;
      }
    }
    assert layer[|layer|..] == [] && next + [] == next;
  }

  method MerkleRoot(h: Hash, leaves: seq<Bytes32>) returns (root: Bytes32)
    ensures root == Root(h, leaves)
  {
    if |leaves| == 0 {
      return 0;
    }
    if |leaves| == 1 {
      return leaves[0];
    }
    var layer := leaves;
    while |layer| > 1
      invariant |layer| >= 1
      invariant Root(h, layer) == Root(h, leaves)
      decreases |layer|
    {
      layer := HashPairs(h, layer);
    }
    root := layer[0];
  }

  // --- the shape of the tree -----------------------------------------------

  /** The largest power of two below n. */
  function Split(n: nat): (k: nat)
    requires n >= 2
    ensures 1 <= k < n <= 2 * k
  {
    if n == 2 then 1 else 2 * Split((n + 1) / 2)
  }

  /**
   The tree by halves: the left one full, as large as a full tree can be that leaves
   something for the right one (section 2.1 of RFC 6962, without its prefixes).
   */
  function TreeHash(h: Hash, leaves: seq<Bytes32>): Bytes32
    decreases |leaves|
  {
    if leaves == [] then 0
    else if |leaves| == 1 then leaves[0]
    else
      var k := Split(|leaves|);
      h(NodeBytes(TreeHash(h, leaves[..k]), TreeHash(h, leaves[k..])))
  }

  predicate IsPower(k: nat) {
    k == 1 || (k >= 2 && k % 2 == 0 && IsPower(k / 2))
  }

  lemma {:induction false} PowersApart(j: nat, k: nat)
    requires IsPower(j) && IsPower(k) && j <= k < 2 * j
    ensures j == k
  {
    if j > 1 && k > 1 {
      PowersApart(j / 2, k / 2);
    }
  }

  lemma {:induction false} SplitIsPower(n: nat)
    requires n >= 2
    ensures IsPower(Split(n))
  {
    if n > 2 {
      SplitIsPower((n + 1) / 2);
    }
  }

  lemma {:induction false} SplitIs(n: nat, k: nat)
    requires n >= 2
    ensures Split(n) == k <==> IsPower(k) && k < n <= 2 * k
  {
    SplitIsPower(n);
    if IsPower(k) && k < n <= 2 * k {
      PowersApart(Min(k, Split(n)), Max(k, Split(n)));
    }
  }

  lemma AfterFirst(x: Bytes32, ys: seq<Bytes32>, zs: seq<Bytes32>)
    ensures [x] + (ys + zs) == ([x] + ys) + zs
  {
  }

  lemma {:induction false} FirstPair(h: Hash, layer: seq<Bytes32>, k: nat)
    requires 2 <= k <= |layer|
    ensures NextLayer(h, layer[..k]) == [h(NodeBytes(layer[0], layer[1]))] + NextLayer(h, layer[2..][..k - 2])
  {
    assert layer[..k][2..] == layer[2..][..k - 2] && layer[..k][0] == layer[0] && layer[..k][1] == layer[1];
  }

  /** Pairing up an even number of nodes does not touch those after them. */
  lemma {:induction false} LayerSplits(h: Hash, layer: seq<Bytes32>, k: nat)
    requires k <= |layer| && k % 2 == 0
    ensures NextLayer(h, layer) == NextLayer(h, layer[..k]) + NextLayer(h, layer[k..])
    decreases k
  {
    if k == 0 {
      assert layer[0..] == layer && layer[..0] == [];
    } else {
      var rest := layer[2..];
      LayerSplits(h, rest, k - 2);
      FirstPair(h, layer, k);
      assert rest[k - 2..] == layer[k..];
      AfterFirst(h(NodeBytes(layer[0], layer[1])), NextLayer(h, rest[..k - 2]), NextLayer(h, layer[k..]));
    }
  }

  /** One layer up, the tree by halves is the same. */
  lemma {:induction false} LayerKeepsTree(h: Hash, leaves: seq<Bytes32>)
    ensures TreeHash(h, NextLayer(h, leaves)) == TreeHash(h, leaves)
    decreases |leaves|
  {
    if |leaves| == 2 {
      assert leaves[2..] == [] && leaves[..1] == [leaves[0]] && leaves[1..] == [leaves[1]];
      assert NextLayer(h, leaves) == [h(NodeBytes(leaves[0], leaves[1]))];
    } else if |leaves| > 2 {
      var k := Split(|leaves|);
      var left, right := leaves[..k], leaves[k..];
      var up := NextLayer(h, leaves);
      LayerSplits(h, leaves, k);
      LayerKeepsTree(h, left);
      LayerKeepsTree(h, right);
      assert Split(|up|) == k / 2;
      assert up[..k / 2] == NextLayer(h, left) && up[k / 2..] == NextLayer(h, right);
    }
  }

  /** The layered loop computes the tree by halves. */
  lemma {:induction false} RootIsTreeHash(h: Hash, leaves: seq<Bytes32>)
    ensures Root(h, leaves) == TreeHash(h, leaves)
    decreases |leaves|
  {
    if |leaves| >= 2 {
      LayerKeepsTree(h, leaves);
      RootIsTreeHash(h, NextLayer(h, leaves));
    }
  }

  // --- injectivity ---------------------------------------------------------

  function LayerHashed(layer: seq<Bytes32>): set<seq<Byte>> {
    if |layer| < 2 then {} else {NodeBytes(layer[0], layer[1])} + LayerHashed(layer[2..])
  }

  /** Every byte string hashed on the way to the root. */
  function Hashed(h: Hash, leaves: seq<Bytes32>): set<seq<Byte>>
    decreases |leaves|
  {
    if |leaves| < 2 then {} else LayerHashed(leaves) + Hashed(h, NextLayer(h, leaves))
  }

  lemma NodesBind(a: Bytes32, b: Bytes32, a': Bytes32, b': Bytes32)
    requires NodeBytes(a, b) == NodeBytes(a', b')
    ensures a == a' && b == b'
  {
    assert NodeBytes(a, b)[..32] == ArrayOf(a) && NodeBytes(a, b)[32..] == ArrayOf(b);
    assert NodeBytes(a', b')[..32] == ArrayOf(a') && NodeBytes(a', b')[32..] == ArrayOf(b');
    ArraysAreNumbers([], a);
    ArraysAreNumbers([], b);
    ArraysAreNumbers([], a');
    ArraysAreNumbers([], b');
  }

  lemma {:induction false} LayersBind(h: Hash, xs: seq<Bytes32>, ys: seq<Bytes32>)
    requires |xs| == |ys| && NextLayer(h, xs) == NextLayer(h, ys)
    ensures xs == ys || Collision(h, LayerHashed(xs) + LayerHashed(ys))
  {
    if |xs| >= 2 {
      var p, q := NodeBytes(xs[0], xs[1]), NodeBytes(ys[0], ys[1]);
      assert h(p) == NextLayer(h, xs)[0] == NextLayer(h, ys)[0] == h(q);
      assert NextLayer(h, xs[2..]) == NextLayer(h, xs)[1..] == NextLayer(h, ys)[1..] == NextLayer(h, ys[2..]);
      LayersBind(h, xs[2..], ys[2..]);
      if p == q {
        NodesBind(xs[0], xs[1], ys[0], ys[1]);
        assert xs == [xs[0], xs[1]] + xs[2..] && ys == [ys[0], ys[1]] + ys[2..];
      }
    }
  }

  /** Two lists of one length with one root are one list, or their trees hold a collision. */
  lemma {:induction false} RootBinds(h: Hash, xs: seq<Bytes32>, ys: seq<Bytes32>)
    requires |xs| == |ys| && Root(h, xs) == Root(h, ys)
    ensures xs == ys || Collision(h, Hashed(h, xs) + Hashed(h, ys))
    decreases |xs|
  {
    if |xs| == 1 {
      assert xs == [xs[0]] && ys == [ys[0]];
    } else if |xs| >= 2 {
      RootBinds(h, NextLayer(h, xs), NextLayer(h, ys));
      if NextLayer(h, xs) == NextLayer(h, ys) {
        LayersBind(h, xs, ys);
      }
    }
  }

  /** Without the length it would not: the hash of the first pair stands in for the pair. */
  lemma RootAloneDoesNotBind(h: Hash, a: Bytes32, b: Bytes32, c: Bytes32)
    ensures Root(h, [h(NodeBytes(a, b)), c]) == Root(h, [a, b, c])
  {
    var ab := h(NodeBytes(a, b));
    assert NextLayer(h, [a, b, c]) == [ab] + NextLayer(h, [a, b, c][2..]) == [ab, c];
    assert NextLayer(h, [ab, c]) == [h(NodeBytes(ab, c))] + NextLayer(h, [ab, c][2..]) == [h(NodeBytes(ab, c))];
  }

  /**
   The shape the comment on `hashing_blob` gives instead, `root([A, H(B|C)]) ==
   root([A, B, C])`, is not one the code produces: it needs a collision or a leaf that
   is a hash of itself.
   */
  lemma CommentedShapeNeedsACollision(h: Hash, a: Bytes32, b: Bytes32, c: Bytes32)
    requires Root(h, [a, h(NodeBytes(b, c))]) == Root(h, [a, b, c])
    ensures (a == h(NodeBytes(a, b)) && c == h(NodeBytes(b, c)))
            || Collision(h, {NodeBytes(a, h(NodeBytes(b, c))), NodeBytes(h(NodeBytes(a, b)), c)})
  {
    var ab, bc := h(NodeBytes(a, b)), h(NodeBytes(b, c));
    assert NextLayer(h, [a, b, c]) == [ab] + NextLayer(h, [a, b, c][2..]) == [ab, c];
    assert NextLayer(h, [ab, c]) == [h(NodeBytes(ab, c))] + NextLayer(h, [ab, c][2..]) == [h(NodeBytes(ab, c))];
    assert NextLayer(h, [a, bc]) == [h(NodeBytes(a, bc))] + NextLayer(h, [a, bc][2..]) == [h(NodeBytes(a, bc))];
    assert Root(h, [a, b, c]) == Root(h, [ab, c]) == h(NodeBytes(ab, c));
    assert Root(h, [a, bc]) == h(NodeBytes(a, bc));
    if NodeBytes(a, bc) == NodeBytes(ab, c) {
      NodesBind(a, bc, ab, c);
    } else {
      assert NodeBytes(a, bc) in {NodeBytes(a, bc), NodeBytes(ab, c)};
    }
  }

  // --- block ids -----------------------------------------------------------

  function Leaves(h: Hash, b: Block): seq<Bytes32> {
    [h(CoinbaseBytes(b.coinbase))] + b.txHashes
  }

  function HashingBlob(h: Hash, b: Block): seq<Byte> {
    HeaderBytes(b.header) + (ArrayOf(Root(h, Leaves(h, b))) + ToLe(4, 1 + |b.txHashes|))
  }

  lemma Slices(x: seq<Byte>, y: seq<Byte>, z: seq<Byte>)
    ensures (x + (y + z))[|x|..|x| + |y|] == y && (x + (y + z))[|x| + |y|..] == z
  {
  }

  lemma {:induction false} HeaderIs(hd: BlockHeader, bytes: seq<Byte>)
    requires bytes == HeaderBytes(hd)
    ensures |bytes| == 46 && bytes[0] == hd.majorVersion && bytes[1] == hd.minorVersion
    ensures bytes[2..10] == ToLe(8, hd.timestamp) && bytes[10..42] == ArrayOf(hd.prevId)
    ensures bytes[42..] == ToLe(4, hd.nonce)
  {
    var versions := [hd.majorVersion] + [hd.minorVersion];
    var time, prev, nonce := ToLe(8, hd.timestamp), ArrayOf(hd.prevId), ToLe(4, hd.nonce);
    assert bytes == versions + (time + (prev + nonce));
    Slices(versions, time, prev + nonce);
    assert bytes == (versions + time) + (prev + nonce);
    Slices(versions + time, prev, nonce);
  }

  /** 82 bytes: versions, time, parent, nonce, then the root over coinbase and transactions, and how many they are. */
  lemma {:induction false} BlobIs(h: Hash, b: Block)
    ensures var blob, hd := HashingBlob(h, b), b.header;
            && |blob| == 82 && blob[0] == hd.majorVersion && blob[1] == hd.minorVersion
            && blob[2..10] == ToLe(8, hd.timestamp) && blob[10..42] == ArrayOf(hd.prevId)
            && blob[42..46] == ToLe(4, hd.nonce)
            && blob[46..78] == ArrayOf(TreeHash(h, [h(CoinbaseBytes(b.coinbase))] + b.txHashes))
            && blob[78..] == ToLe(4, |b.txHashes| + 1)
  {
    var header, root, count := HeaderBytes(b.header), ArrayOf(Root(h, Leaves(h, b))), ToLe(4, 1 + |b.txHashes|);
    RootIsTreeHash(h, Leaves(h, b));
    HeaderIs(b.header, header);
    Slices(header, root, count);
    var blob := header + (root + count);
    assert blob[..46] == header;
    assert blob[2..10] == header[2..10] && blob[10..42] == header[10..42] && blob[42..46] == header[42..];
  }

  function BlockId(h: Hash, b: Block): Bytes32 {
    h(HashingBlob(h, b))
  }

  function BlockHashed(h: Hash, b: Block): set<seq<Byte>> {
    {HashingBlob(h, b), CoinbaseBytes(b.coinbase)} + Hashed(h, Leaves(h, b))
  }

  lemma WritesBind<T(!new)>(f: Format<T>, x: T, y: T)
    requires Exact(f) && f.fits(x) && f.fits(y) && f.write(x) == f.write(y)
    ensures x == y
  {
    assert f.read(f.write(x) + []) == Ok((x, []));
    assert f.read(f.write(y) + []) == Ok((y, []));
  }

  lemma TwoBind<A(!new), B(!new)>(f: Format<A>, g: Format<B>, x: A, y: B, x': A, y': B)
    requires Exact(f) && Exact(g) && f.fits(x) && f.fits(x') && g.fits(y) && g.fits(y')
    requires f.write(x) + g.write(y) == f.write(x') + g.write(y')
    ensures x == x' && y == y'
  {
    assert f.read(f.write(x) + g.write(y)) == Ok((x, g.write(y)));
    assert f.read(f.write(x') + g.write(y')) == Ok((x', g.write(y')));
    WritesBind(g, y, y');
  }

  lemma RootsAndCountsBind(r: Bytes32, n: U32, r': Bytes32, n': U32)
    requires ArrayOf(r) + ToLe(4, n) == ArrayOf(r') + ToLe(4, n')
    ensures r == r' && n == n'
  {
    NumbersExact();
    NumbersFit();
    Array32Exact();
    TwoBind(Array32F, U32F, r, n, r', n');
  }

  lemma HeadersBind(h: BlockHeader, s: seq<Byte>, h': BlockHeader, s': seq<Byte>)
    requires HeaderBytes(h) + s == HeaderBytes(h') + s' && |s| == |s'|
    ensures h == h' && s == s'
  {
    HeaderWritten(h);
    HeaderWritten(h');
    HeaderFits(h);
    HeaderFits(h');
    HeaderExact();
    RawExact(|s|);
    TwoBind(HeaderF, Raw(|s|), h, s, h', s');
  }

  lemma BlobsBind(h: BlockHeader, r: Bytes32, n: U32, h': BlockHeader, r': Bytes32, n': U32)
    requires HeaderBytes(h) + (ArrayOf(r) + ToLe(4, n)) == HeaderBytes(h') + (ArrayOf(r') + ToLe(4, n'))
    ensures h == h' && r == r' && n == n'
  {
    HeadersBind(h, ArrayOf(r) + ToLe(4, n), h', ArrayOf(r') + ToLe(4, n'));
    RootsAndCountsBind(r, n, r', n');
  }

  lemma CoinbasesBind(c: Codec, x: Coinbase, y: Coinbase)
    requires CoinbaseWellFormed(c, x) && CoinbaseWellFormed(c, y) && CoinbaseBytes(x) == CoinbaseBytes(y)
    ensures x == y
  {
    CoinbaseExact(c);
    CoinbaseFits(c, x);
    CoinbaseFits(c, y);
    CoinbaseWritten(c, x);
    CoinbaseWritten(c, y);
    WritesBind(CoinbaseF(c), x, y);
  }

  /** A block id determines the header, the coinbase and the whole list of transaction hashes. */
  lemma BlockIdBinds(c: Codec, h: Hash, a: Block, b: Block)
    requires BlockWellFormed(c, a) && BlockWellFormed(c, b) && BlockId(h, a) == BlockId(h, b)
    ensures a == b || Collision(h, BlockHashed(h, a) + BlockHashed(h, b))
  {
    if HashingBlob(h, a) == HashingBlob(h, b) {
      BlobsBind(a.header, Root(h, Leaves(h, a)), 1 + |a.txHashes|, b.header, Root(h, Leaves(h, b)), 1 + |b.txHashes|);
      RootBinds(h, Leaves(h, a), Leaves(h, b));
      if Leaves(h, a) == Leaves(h, b) {
        assert a.txHashes == Leaves(h, a)[1..] == Leaves(h, b)[1..] == b.txHashes;
        if CoinbaseBytes(a.coinbase) == CoinbaseBytes(b.coinbase) {
          CoinbasesBind(c, a.coinbase, b.coinbase);
        } else {
          assert h(CoinbaseBytes(a.coinbase)) == Leaves(h, a)[0] == h(CoinbaseBytes(b.coinbase));
        }
      }
    }
  }

  // --- the transactions behind the hashes ----------------------------------

  function TxsHashed(txs: seq<Transaction>): set<seq<Byte>> {
    set tx | tx in txs :: TxBytes(tx)
  }

  predicate HashesOf(h: Hash, hashes: seq<Bytes32>, txs: seq<Transaction>) {
    |hashes| == |txs| && forall i :: 0 <= i < |txs| ==> hashes[i] == h(TxBytes(txs[i]))
  }

  lemma TxBytesBind(c: Codec, x: Transaction, y: Transaction)
    requires SelfDelimiting(c) && TxWellFormed(c, x) && TxWellFormed(c, y) && TxBytes(x) == TxBytes(y)
    ensures x == y
  {
    TransactionsDecodeExactly(c, x, TxBytes(x));
    TransactionsDecodeExactly(c, y, TxBytes(x));
  }

  lemma TxHashesBind(c: Codec, h: Hash, hashes: seq<Bytes32>, xs: seq<Transaction>, ys: seq<Transaction>)
    requires SelfDelimiting(c) && HashesOf(h, hashes, xs) && HashesOf(h, hashes, ys)
    requires forall i :: 0 <= i < |xs| ==> TxWellFormed(c, xs[i])
    requires forall i :: 0 <= i < |ys| ==> TxWellFormed(c, ys[i])
    ensures xs == ys || Collision(h, TxsHashed(xs) + TxsHashed(ys))
  {
    if xs != ys {
      var i :| 0 <= i < |xs| && xs[i] != ys[i];
      if TxBytes(xs[i]) == TxBytes(ys[i]) {
        TxBytesBind(c, xs[i], ys[i]);
      }
      assert TxBytes(xs[i]) in TxsHashed(xs) && TxBytes(ys[i]) in TxsHashed(ys);
    }
  }

  lemma CollisionGrows(h: Hash, small: set<seq<Byte>>, large: set<seq<Byte>>)
    requires Collision(h, small) && small <= large
    ensures Collision(h, large)
  {
    var p, q :| p in small && q in small && p != q && h(p) == h(q);
    assert p in large && q in large;
  }

  /** With the transactions its hashes name, a block id determines everything the block carries. */
  lemma BlockIdBindsContents(c: Codec, h: Hash, a: StoredBlock, b: StoredBlock)
    requires SelfDelimiting(c) && BlockWellFormed(c, a.block) && BlockWellFormed(c, b.block)
    requires HashesOf(h, a.block.txHashes, a.txs) && HashesOf(h, b.block.txHashes, b.txs)
    requires forall i :: 0 <= i < |a.txs| ==> TxWellFormed(c, a.txs[i])
    requires forall i :: 0 <= i < |b.txs| ==> TxWellFormed(c, b.txs[i])
    requires BlockId(h, a.block) == BlockId(h, b.block)
    ensures a == b || Collision(h, BlockHashed(h, a.block) + BlockHashed(h, b.block) + TxsHashed(a.txs)
              + TxsHashed(b.txs))
  {
    var all := BlockHashed(h, a.block) + BlockHashed(h, b.block) + TxsHashed(a.txs) + TxsHashed(b.txs);
    BlockIdBinds(c, h, a.block, b.block);
    if a.block == b.block {
      TxHashesBind(c, h, a.block.txHashes, a.txs, b.txs);
      if a.txs != b.txs {
        CollisionGrows(h, TxsHashed(a.txs) + TxsHashed(b.txs), all);
      }
    } else {
      CollisionGrows(h, BlockHashed(h, a.block) + BlockHashed(h, b.block), all);
    }
  }
}
