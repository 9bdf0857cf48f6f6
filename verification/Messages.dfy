/** Gossip messages on the wire (noct/core/src/wire.rs). */
module Messages {
  import opened Types
  import opened Data
  import opened Formats
  import opened Wire
  import opened Encoders
  import opened WellFormed
  import opened LittleEndian

  datatype SocketAddr =
    | V4(ip: seq<Byte>, port: U16)
    | V6(ip: seq<Byte>, port: U16, flowInfo: U32, scopeId: U32)

  datatype Message =
    | Tx(tx: Transaction, phase: Phase)
    | BlockMsg(block: Block, txs: seq<Transaction>)
    | GetTip
    | Tip(network: U32, height: U64, tip: Bytes32, work: U128)
    | GetBlock(height: U64)
    | NoBlock(height: U64)
    | Version(network: U32, genesis: Bytes32, port: U16, nonce: U64)
    | GetPeers
    | Peers(addrs: seq<SocketAddr>)

  const ADDR_V4: Byte := 4
  const ADDR_V6: Byte := 6

  function BuildV4(p: (seq<Byte>, U16)): SocketAddr { V4(p.0, p.1) }

  function BuildV6(p: (seq<Byte>, U16)): SocketAddr { V6(p.0, p.1, 0, 0) }

  function AddrParts(a: SocketAddr): (seq<Byte>, U16) { (a.ip, a.port) }

  /** Flow info and scope id are not written, so only addresses without them survive. */
  function AddrBodyF(tag: Byte): Format<SocketAddr> {
    if tag == ADDR_V4 then Mapped(Pair(Raw(4), U16F), BuildV4, AddrParts)
    else if tag == ADDR_V6 then Mapped(Pair(Raw(16), U16F), BuildV6, AddrParts)
    else Never(BadTag)
  }

  function AddrOf(p: (Byte, SocketAddr)): SocketAddr { p.1 }

  function TaggedAddr(a: SocketAddr): (Byte, SocketAddr) {
    (if a.V4? then ADDR_V4 else ADDR_V6, a)
  }

  const AddrF: Format<SocketAddr> := Mapped(Then(ByteF, AddrBodyF), AddrOf, TaggedAddr)

  lemma AddrBodyExact(tag: Byte)
    ensures Exact(AddrBodyF(tag))
  {
    NumbersExact();
    if tag == ADDR_V4 {
      RawExact(4);
      PairExact(Raw(4), U16F);
      MappedExact(Pair(Raw(4), U16F), BuildV4, AddrParts);
    } else if tag == ADDR_V6 {
      RawExact(16);
      PairExact(Raw(16), U16F);
      MappedExact(Pair(Raw(16), U16F), BuildV6, AddrParts);
    } else {
      NeverExact<SocketAddr>(BadTag);
    }
  }

  lemma AddrTagIsRead(tag: Byte, a: SocketAddr)
    requires AddrBodyF(tag).fits(a)
    ensures TaggedAddr(a) == (tag, a)
  {
    if tag == ADDR_V4 {
      assert BuildV4(AddrParts(a)) == a;
    } else if tag == ADDR_V6 {
      assert BuildV6(AddrParts(a)) == a;
    }
  }

  lemma AddrExact()
    ensures Exact(AddrF)
  {
    NumbersExact();
    forall tag: Byte
      ensures Exact(AddrBodyF(tag))
    {
      AddrBodyExact(tag);
    }
    ThenExact(ByteF, AddrBodyF);
    forall p | Then(ByteF, AddrBodyF).fits(p)
      ensures TaggedAddr(AddrOf(p)) == p
    {
      AddrTagIsRead(p.0, p.1);
    }
    MappedExact(Then(ByteF, AddrBodyF), AddrOf, TaggedAddr);
  }

  function PhaseOf(tag: Byte): Phase { if tag == 0 then Stem else Fluff }

  function PhaseTag(phase: Phase): Byte { if phase == Stem then 0 else 1 }

  const PhaseF: Format<Phase> := Mapped(Checked(ByteF, (b: Byte) => b <= 1, BadTag), PhaseOf, PhaseTag)

  lemma PhaseExact()
    ensures Exact(PhaseF)
  {
    NumbersExact();
    CheckedExact(ByteF, (b: Byte) => b <= 1, BadTag);
    MappedExact(Checked(ByteF, (b: Byte) => b <= 1, BadTag), PhaseOf, PhaseTag);
  }

  function TagOf(m: Message): Byte {
    match m
    case Tx(_, _) => 0
    case BlockMsg(_, _) => 1
    case GetTip => 2
    case Tip(_, _, _, _) => 3
    case GetBlock(_) => 4
    case NoBlock(_) => 5
    case Version(_, _, _, _) => 6
    case GetPeers => 7
    case Peers(_) => 8
  }

  const ANY_TX: Transaction := Transaction(0, 0, [], 0, [], [], None, 0, None)
  const ANY_BLOCK: Block := Block(BlockHeader(0, 0, 0, 0, 0), Coinbase(0, 0, [], None), [])

  type TxPayload = (Transaction, Phase)
  type BlockPayload = (Block, seq<Transaction>)
  type TipPayload = (U32, (U64, (Bytes32, U128)))
  type VersionPayload = (U32, (Bytes32, (U16, U64)))

  // The parts of a message of one kind; of any other kind, something that does not build it back.

  function TxPayloadOf(m: Message): TxPayload { if m.Tx? then (m.tx, m.phase) else (ANY_TX, Stem) }

  function BlockPayloadOf(m: Message): BlockPayload { if m.BlockMsg? then (m.block, m.txs) else (ANY_BLOCK, []) }

  function TipPayloadOf(m: Message): TipPayload {
    if m.Tip? then (m.network, (m.height, (m.tip, m.work))) else (0, (0, (0, 0)))
  }

  function GetBlockPayloadOf(m: Message): U64 { if m.GetBlock? then m.height else 0 }

  function NoBlockPayloadOf(m: Message): U64 { if m.NoBlock? then m.height else 0 }

  function VersionPayloadOf(m: Message): VersionPayload {
    if m.Version? then (m.network, (m.genesis, (m.port, m.nonce))) else (0, (0, (0, 0)))
  }

  function PeersPayloadOf(m: Message): seq<SocketAddr> { if m.Peers? then m.addrs else [] }

  function BuildTxMsg(p: TxPayload): Message { Tx(p.0, p.1) }

  function BuildBlockMsg(p: BlockPayload): Message { BlockMsg(p.0, p.1) }

  function BuildTip(p: TipPayload): Message { Tip(p.0, p.1.0, p.1.1.0, p.1.1.1) }

  function BuildGetBlock(h: U64): Message { GetBlock(h) }

  function BuildNoBlock(h: U64): Message { NoBlock(h) }

  function BuildVersion(p: VersionPayload): Message { Version(p.0, p.1.0, p.1.1.0, p.1.1.1) }

  function BuildPeers(addrs: seq<SocketAddr>): Message { Peers(addrs) }

  const TipF: Format<TipPayload> := Pair(U32F, Pair(U64F, Pair(Array32F, U128F)))
  const VersionF: Format<VersionPayload> := Pair(U32F, Pair(Array32F, Pair(U16F, U64F)))

  function TxBodyF(c: Codec): Format<Message> {
    Mapped(Pair(TransactionF(c), PhaseF), BuildTxMsg, TxPayloadOf)
  }

  function BlockBodyF(c: Codec): Format<Message> {
    Mapped(Pair(BlockF(c), Counted(4, MAX_TXS_PER_BLOCK, TransactionF(c))), BuildBlockMsg, BlockPayloadOf)
  }

  const TipBodyF: Format<Message> := Mapped(TipF, BuildTip, TipPayloadOf)
  const GetBlockBodyF: Format<Message> := Mapped(U64F, BuildGetBlock, GetBlockPayloadOf)
  const NoBlockBodyF: Format<Message> := Mapped(U64F, BuildNoBlock, NoBlockPayloadOf)
  const VersionBodyF: Format<Message> := Mapped(VersionF, BuildVersion, VersionPayloadOf)
  const PeersBodyF: Format<Message> :=
    Mapped(Counted(4, MAX_PEERS_PER_MESSAGE, AddrF), BuildPeers, PeersPayloadOf)

  function BodyF(c: Codec, tag: Byte): Format<Message> {
    if tag == 0 then TxBodyF(c)
    else if tag == 1 then BlockBodyF(c)
    else if tag == 2 then Nothing(GetTip)
    else if tag == 3 then TipBodyF
    else if tag == 4 then GetBlockBodyF
    else if tag == 5 then NoBlockBodyF
    else if tag == 6 then VersionBodyF
    else if tag == 7 then Nothing(GetPeers)
    else if tag == 8 then PeersBodyF
    else Never(BadTag)
  }

  function MessageOf(p: (Byte, Message)): Message { p.1 }

  function TaggedMessage(m: Message): (Byte, Message) { (TagOf(m), m) }

  function TaggedBodyF(c: Codec): Format<(Byte, Message)> {
    Then(ByteF, (tag: Byte) => BodyF(c, tag))
  }

  function MessageF(c: Codec): Format<Message> {
    Mapped(TaggedBodyF(c), MessageOf, TaggedMessage)
  }

  /** A format for the payload of messages with this tag, and of no others. */
  ghost predicate IsBody(f: Format<Message>, tag: Byte) {
    Exact(f) && forall m :: f.fits(m) ==> TagOf(m) == tag
  }

  lemma TxBodyExact(c: Codec)
    requires SelfDelimiting(c)
    ensures IsBody(TxBodyF(c), 0)
  {
    TransactionExact(c);
    PhaseExact();
    PairExact(TransactionF(c), PhaseF);
    MappedExact(Pair(TransactionF(c), PhaseF), BuildTxMsg, TxPayloadOf);
    forall m | TxBodyF(c).fits(m)
      ensures m.Tx?
    {
      assert BuildTxMsg(TxPayloadOf(m)) == m;
    }
  }

  lemma BlockBodyExact(c: Codec)
    requires SelfDelimiting(c)
    ensures IsBody(BlockBodyF(c), 1)
  {
    TransactionExact(c);
    BlockExact(c);
    CountedExact(4, MAX_TXS_PER_BLOCK, TransactionF(c));
    PairExact(BlockF(c), Counted(4, MAX_TXS_PER_BLOCK, TransactionF(c)));
    MappedExact(Pair(BlockF(c), Counted(4, MAX_TXS_PER_BLOCK, TransactionF(c))), BuildBlockMsg, BlockPayloadOf);
    forall m | BlockBodyF(c).fits(m)
      ensures m.BlockMsg?
    {
      assert BuildBlockMsg(BlockPayloadOf(m)) == m;
    }
  }

  lemma TipBodyExact()
    ensures IsBody(TipBodyF, 3)
  {
    NumbersExact();
    Array32Exact();
    PairExact(Array32F, U128F);
    PairExact(U64F, Pair(Array32F, U128F));
    PairExact(U32F, Pair(U64F, Pair(Array32F, U128F)));
    MappedExact(TipF, BuildTip, TipPayloadOf);
    forall m | TipBodyF.fits(m)
      ensures m.Tip?
    {
      assert BuildTip(TipPayloadOf(m)) == m;
    }
  }

  lemma HeightBodiesExact()
    ensures IsBody(GetBlockBodyF, 4) && IsBody(NoBlockBodyF, 5)
  {
    NumbersExact();
    MappedExact(U64F, BuildGetBlock, GetBlockPayloadOf);
    MappedExact(U64F, BuildNoBlock, NoBlockPayloadOf);
    forall m | GetBlockBodyF.fits(m)
      ensures m.GetBlock?
    {
      assert BuildGetBlock(GetBlockPayloadOf(m)) == m;
    }
    forall m | NoBlockBodyF.fits(m)
      ensures m.NoBlock?
    {
      assert BuildNoBlock(NoBlockPayloadOf(m)) == m;
    }
  }

  lemma VersionBodyExact()
    ensures IsBody(VersionBodyF, 6)
  {
    NumbersExact();
    Array32Exact();
    PairExact(U16F, U64F);
    PairExact(Array32F, Pair(U16F, U64F));
    PairExact(U32F, Pair(Array32F, Pair(U16F, U64F)));
    MappedExact(VersionF, BuildVersion, VersionPayloadOf);
    forall m | VersionBodyF.fits(m)
      ensures m.Version?
    {
      assert BuildVersion(VersionPayloadOf(m)) == m;
    }
  }

  lemma PeersBodyExact()
    ensures IsBody(PeersBodyF, 8)
  {
    AddrExact();
    CountedExact(4, MAX_PEERS_PER_MESSAGE, AddrF);
    MappedExact(Counted(4, MAX_PEERS_PER_MESSAGE, AddrF), BuildPeers, PeersPayloadOf);
    forall m | PeersBodyF.fits(m)
      ensures m.Peers?
    {
      assert BuildPeers(PeersPayloadOf(m)) == m;
    }
  }

  lemma {:induction false} EmptyBodyExact(m: Message)
    requires m.GetTip? || m.GetPeers?
    ensures IsBody(Nothing(m), TagOf(m))
  {
    NothingExact(m);
  }

  lemma {:induction false} NoBodyExact(tag: Byte)
    ensures IsBody(Never(BadTag), tag)
  {
    NeverExact<Message>(BadTag);
  }

  /** Every tag has an exact body, and a body belongs to messages of that tag alone. */
  lemma {:induction false} BodyExact(c: Codec, tag: Byte)
    requires SelfDelimiting(c)
    ensures IsBody(BodyF(c, tag), tag)
  {
    if tag == 0 {
      TxBodyExact(c);
    } else if tag == 1 {
      BlockBodyExact(c);
    } else if tag == 2 {
      EmptyBodyExact(GetTip);
    } else if tag == 3 {
      TipBodyExact();
    } else if tag == 4 || tag == 5 {
      HeightBodiesExact();
    } else if tag == 6 {
      VersionBodyExact();
    } else if tag == 7 {
      EmptyBodyExact(GetPeers);
    } else if tag == 8 {
      PeersBodyExact();
    } else {
      NoBodyExact(tag);
    }
  }

  lemma TaggedBodyExact(c: Codec)
    requires SelfDelimiting(c)
    ensures Exact(TaggedBodyF(c))
    ensures forall p :: TaggedBodyF(c).fits(p) ==> TaggedMessage(MessageOf(p)) == p
  {
    NumbersExact();
    var body := (tag: Byte) => BodyF(c, tag);
    forall tag: Byte
      ensures Exact(body(tag))
    {
      BodyExact(c, tag);
    }
    ThenExact(ByteF, body);
    forall p | TaggedBodyF(c).fits(p)
      ensures TaggedMessage(MessageOf(p)) == p
    {
      BodyExact(c, p.0);
    }
  }

  lemma MessageExact(c: Codec)
    requires SelfDelimiting(c)
    ensures Exact(MessageF(c))
  {
    TaggedBodyExact(c);
    MappedExact(TaggedBodyF(c), MessageOf, TaggedMessage);
  }

  // --- what messages look like ---------------------------------------------

  /** Flow info and scope id are not written. */
  function AddrBytes(a: SocketAddr): seq<Byte> {
    [if a.V4? then ADDR_V4 else ADDR_V6] + (a.ip + ToLe(2, a.port))
  }

  function PayloadBytes(m: Message): seq<Byte> {
    match m
    case Tx(tx, phase) => TxBytes(tx) + [PhaseTag(phase)]
    case BlockMsg(block, txs) => BlockBytes(block) + VecBytes(TxBytes, txs)
    case GetTip => []
    case Tip(network, height, tip, work) => ToLe(4, network) + (ToLe(8, height) + (ArrayOf(tip) + ToLe(16, work)))
    case GetBlock(height) => ToLe(8, height)
    case NoBlock(height) => ToLe(8, height)
    case Version(network, genesis, port, nonce) =>
      ToLe(4, network) + (ArrayOf(genesis) + (ToLe(2, port) + ToLe(8, nonce)))
    case GetPeers => []
    case Peers(addrs) => VecBytes(AddrBytes, addrs)
  }

  function MessageBytes(m: Message): seq<Byte> {
    [TagOf(m)] + PayloadBytes(m)
  }

  predicate AddrWellFormed(a: SocketAddr) {
    match a
    case V4(ip, _) => |ip| == 4
    case V6(ip, _, flowInfo, scopeId) => |ip| == 16 && flowInfo == 0 && scopeId == 0
  }

  predicate MessageWellFormed(c: Codec, m: Message) {
    match m
    case Tx(tx, _) => TxWellFormed(c, tx)
    case BlockMsg(block, txs) =>
      && BlockWellFormed(c, block) && |txs| <= 8192
      && forall i :: 0 <= i < |txs| ==> TxWellFormed(c, txs[i])
    case Peers(addrs) =>
      |addrs| <= 1024 && forall i :: 0 <= i < |addrs| ==> AddrWellFormed(addrs[i])
    case _ => true
  }

  /** `write_socket_addr`. */
  function PutAddr(out: seq<Byte>, a: SocketAddr): seq<Byte> {
    match a
    case V4(ip, port) => out + [ADDR_V4] + ip + ToLe(2, port)
    case V6(ip, port, _, _) => out + [ADDR_V6] + ip + ToLe(2, port)
  }

  lemma PutAddrAppends()
    ensures Appends(PutAddr, AddrBytes)
  {
    forall out: seq<Byte>, a: SocketAddr
      ensures PutAddr(out, a) == out + AddrBytes(a)
    {
      AppendedThrice(out, [if a.V4? then ADDR_V4 else ADDR_V6], a.ip, ToLe(2, a.port));
    }
  }

  /** `encode_message`, tag by tag. */
  method EncodeMessage(m: Message) returns (out: seq<Byte>)
    ensures out == MessageBytes(m)
  {
    out := [TagOf(m)];
    match m
    case Tx(tx, phase) =>
      var bytes := EncodeTransaction(tx);
      out := out + (bytes + [PhaseTag(phase)]);
    case BlockMsg(block, txs) =>
      var bytes := EncodeBlock(block);
      Appended(out, bytes, VecBytes(TxBytes, txs));
      PutTransactionAppends();
      PutVecAppends(out + bytes, txs, PutTransaction, TxBytes);
      out := WriteVec(out + bytes, txs, PutTransaction);
    case GetTip =>
    case Tip(network, height, tip, work) =>
      out := out + (ToLe(4, network) + (ToLe(8, height) + (ArrayOf(tip) + ToLe(16, work))));
    case GetBlock(height) =>
      out := out + ToLe(8, height);
    case NoBlock(height) =>
      out := out + ToLe(8, height);
    case Version(network, genesis, port, nonce) =>
      out := out + (ToLe(4, network) + (ArrayOf(genesis) + (ToLe(2, port) + ToLe(8, nonce))));
    case GetPeers =>
    case Peers(addrs) =>
      PutAddrAppends();
      PutVecAppends(out, addrs, PutAddr, AddrBytes);
      out := WriteVec(out, addrs, PutAddr);
  }

  lemma PhaseWritten(phase: Phase)
    ensures PhaseF.fits(phase) && PhaseF.write(phase) == [PhaseTag(phase)]
  {
    NumbersFit();
    OneByte(PhaseTag(phase));
  }

  predicate BodyOk(c: Codec, tag: Byte, m: Message) {
    TagOf(m) == tag && MessageWellFormed(c, m)
  }

  lemma TxBodyCodes(c: Codec)
    ensures Codes(TxBodyF(c), (m: Message) => BodyOk(c, 0, m), PayloadBytes)
  {
    TransactionCodes(c);
    forall p: Phase
      ensures PhaseF.fits(p) && PhaseF.write(p) == [PhaseTag(p)]
    {
      PhaseWritten(p);
    }
    var okTx := (tx: Transaction) => TxWellFormed(c, tx);
    var ok := (m: Message) => BodyOk(c, 0, m);
    MappedPairCodes(TransactionF(c), okTx, TxBytes, PhaseF, (p: Phase) => true, (p: Phase) => [PhaseTag(p)],
      BuildTxMsg, TxPayloadOf, ok, PayloadBytes);
  }

  lemma {:induction false} BlockBodyCodes(c: Codec)
    ensures Codes(BlockBodyF(c), (m: Message) => BodyOk(c, 1, m), PayloadBytes)
  {
    BlockCodes(c);
    TransactionCodes(c);
    var okTx := (tx: Transaction) => TxWellFormed(c, tx);
    CountedCodes(MAX_TXS_PER_BLOCK, TransactionF(c), okTx, TxBytes);
    var okTxs := (txs: seq<Transaction>) => EachOk(MAX_TXS_PER_BLOCK, okTx, txs);
    var bytesTxs := (txs: seq<Transaction>) => VecBytes(TxBytes, txs);
    var ok := (m: Message) => BodyOk(c, 1, m);
    MappedPairCodes(BlockF(c), (b: Block) => BlockWellFormed(c, b), BlockBytes,
      Counted(4, MAX_TXS_PER_BLOCK, TransactionF(c)), okTxs, bytesTxs,
      BuildBlockMsg, BlockPayloadOf, ok, PayloadBytes);
  }

  lemma TipBodyCodes(c: Codec)
    ensures Codes(TipBodyF, (m: Message) => BodyOk(c, 3, m), PayloadBytes)
  {
    FieldCodes();
    WideFieldCodes();
    var w4, w8, w16 := (x: U32) => ToLe(4, x), (x: U64) => ToLe(8, x), (x: U128) => ToLe(16, x);
    FourCodes(U32F, w4, U64F, w8, Array32F, ArrayOf, U128F, w16);
    var bytes := (x: TipPayload) => w4(x.0) + (w8(x.1.0) + (ArrayOf(x.1.1.0) + w16(x.1.1.1)));
    MappedCodes(TipF, (x: TipPayload) => true, bytes, BuildTip, TipPayloadOf, (m: Message) => BodyOk(c, 3, m),
        PayloadBytes);
  }

  lemma VersionBodyCodes(c: Codec)
    ensures Codes(VersionBodyF, (m: Message) => BodyOk(c, 6, m), PayloadBytes)
  {
    FieldCodes();
    WideFieldCodes();
    var w4, w2, w8 := (x: U32) => ToLe(4, x), (x: U16) => ToLe(2, x), (x: U64) => ToLe(8, x);
    FourCodes(U32F, w4, Array32F, ArrayOf, U16F, w2, U64F, w8);
    var bytes := (x: VersionPayload) => w4(x.0) + (ArrayOf(x.1.0) + (w2(x.1.1.0) + w8(x.1.1.1)));
    MappedCodes(VersionF, (x: VersionPayload) => true, bytes,
      BuildVersion, VersionPayloadOf, (m: Message) => BodyOk(c, 6, m), PayloadBytes);
  }

  lemma HeightBodiesCode(c: Codec)
    ensures Codes(GetBlockBodyF, (m: Message) => BodyOk(c, 4, m), PayloadBytes)
    ensures Codes(NoBlockBodyF, (m: Message) => BodyOk(c, 5, m), PayloadBytes)
  {
    FieldCodes();
    var bytes := (x: U64) => ToLe(8, x);
    MappedCodes(U64F, (x: U64) => true, bytes,
      BuildGetBlock, GetBlockPayloadOf, (m: Message) => BodyOk(c, 4, m), PayloadBytes);
    MappedCodes(U64F, (x: U64) => true, bytes,
      BuildNoBlock, NoBlockPayloadOf, (m: Message) => BodyOk(c, 5, m), PayloadBytes);
  }

  lemma AddrBodyFits(a: SocketAddr)
    ensures AddrBodyF(TaggedAddr(a).0).fits(a) <==> AddrWellFormed(a)
    ensures AddrBodyF(TaggedAddr(a).0).write(a) == a.ip + ToLe(2, a.port)
  {
    NumbersFit();
    if a.V4? {
      PairFits(Raw(4), U16F, a.ip, a.port);
      PairWrites(Raw(4), U16F, a.ip, a.port);
      MappedFits(Pair(Raw(4), U16F), BuildV4, AddrParts, a);
    } else {
      PairFits(Raw(16), U16F, a.ip, a.port);
      PairWrites(Raw(16), U16F, a.ip, a.port);
      assert BuildV6(AddrParts(a)) == a <==> a.flowInfo == 0 && a.scopeId == 0;
      if a.flowInfo == 0 && a.scopeId == 0 {
        MappedFits(Pair(Raw(16), U16F), BuildV6, AddrParts, a);
      }
    }
  }

  lemma AddrCodes()
    ensures Codes(AddrF, AddrWellFormed, AddrBytes)
  {
    forall a: SocketAddr
      ensures AddrF.fits(a) <==> AddrWellFormed(a)
      ensures AddrF.write(a) == AddrBytes(a)
    {
      NumbersFit();
      AddrBodyFits(a);
      var tag := TaggedAddr(a).0;
      OneByte(tag);
      ThenFits(ByteF, AddrBodyF, tag, a);
      ThenWrites(ByteF, AddrBodyF, tag, a);
    }
  }

  lemma PeersBodyCodes(c: Codec)
    ensures Codes(PeersBodyF, (m: Message) => BodyOk(c, 8, m), PayloadBytes)
  {
    AddrCodes();
    CountedCodes(MAX_PEERS_PER_MESSAGE, AddrF, AddrWellFormed, AddrBytes);
    var ok := (addrs: seq<SocketAddr>) => EachOk(MAX_PEERS_PER_MESSAGE, AddrWellFormed, addrs);
    var bytes := (addrs: seq<SocketAddr>) => VecBytes(AddrBytes, addrs);
    MappedCodes(Counted(4, MAX_PEERS_PER_MESSAGE, AddrF), ok, bytes, BuildPeers, PeersPayloadOf,
      (m: Message) => BodyOk(c, 8, m), PayloadBytes);
  }

  lemma BodyCodes(c: Codec, tag: Byte)
    ensures Codes(BodyF(c, tag), (m: Message) => BodyOk(c, tag, m), PayloadBytes)
  {
    if tag == 0 {
      TxBodyCodes(c);
    } else if tag == 1 {
      BlockBodyCodes(c);
    } else if tag == 3 {
      TipBodyCodes(c);
    } else if tag == 4 || tag == 5 {
      HeightBodiesCode(c);
    } else if tag == 6 {
      VersionBodyCodes(c);
    } else if tag == 8 {
      PeersBodyCodes(c);
    }
  }

  /** A byte-tagged choice of bodies, for any bodies. */
  lemma Tagged(body: Byte -> Format<Message>, m: Message)
    ensures Mapped(Then(ByteF, body), MessageOf, TaggedMessage).fits(m) <==> body(TagOf(m)).fits(m)
    ensures Mapped(Then(ByteF, body), MessageOf, TaggedMessage).write(m) == [TagOf(m)] + body(TagOf(m)).write(m)
  {
    NumbersFit();
    OneByte(TagOf(m));
    ThenFits(ByteF, body, TagOf(m), m);
    ThenWrites(ByteF, body, TagOf(m), m);
    MappedWrites(Then(ByteF, body), MessageOf, TaggedMessage, m);
  }

  lemma MessageCodesFrom(body: Byte -> Format<Message>, c: Codec)
    requires forall tag: Byte :: Codes(body(tag), (m: Message) => BodyOk(c, tag, m), PayloadBytes)
    ensures Codes(Mapped(Then(ByteF, body), MessageOf, TaggedMessage),
              (m: Message) => MessageWellFormed(c, m), MessageBytes)
  {
    forall m: Message
      ensures Mapped(Then(ByteF, body), MessageOf, TaggedMessage).fits(m) <==> MessageWellFormed(c, m)
      ensures MessageWellFormed(c, m) ==>
                Mapped(Then(ByteF, body), MessageOf, TaggedMessage).write(m) == MessageBytes(m)
    {
      Tagged(body, m);
      assert Codes(body(TagOf(m)), (m': Message) => BodyOk(c, TagOf(m), m'), PayloadBytes);
      assert body(TagOf(m)).fits(m) <==> BodyOk(c, TagOf(m), m);
    }
  }

  lemma MessageCodes(c: Codec)
    ensures Codes(MessageF(c), (m: Message) => MessageWellFormed(c, m), MessageBytes)
  {
    var body := (tag: Byte) => BodyF(c, tag);
    forall tag: Byte
      ensures Codes(body(tag), (m: Message) => BodyOk(c, tag, m), PayloadBytes)
    {
      BodyCodes(c, tag);
    }
    MessageCodesFrom(body, c);
  }

  function DecodeMessage(c: Codec, bytes: seq<Byte>): Result<Message, WireError> {
    DecodeAll(MessageF(c), bytes)
  }

  /** Bytes decode to a message exactly when it is well-formed and they are its encoding. */
  lemma MessagesDecodeExactly(c: Codec, m: Message, bytes: seq<Byte>)
    requires SelfDelimiting(c)
    ensures DecodeMessage(c, bytes) == Ok(m) <==> MessageWellFormed(c, m) && bytes == MessageBytes(m)
  {
    MessageExact(c);
    MessageCodes(c);
    CodesDecode(MessageF(c), (m: Message) => MessageWellFormed(c, m), MessageBytes, m, bytes);
  }
}
