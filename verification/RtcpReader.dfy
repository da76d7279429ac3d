/**
 * The receiving side of src/rtcp.cc: handle_incoming_packet walks a datagram from one length
 * field to the next and reads the fields of each packet.
 */
module RtcpReader {
  import opened Bytes
  import opened Wrappers
  import opened RtcpTracker
  import opened RtcpSession
  import opened RtcpPackets
  import opened RtcpReports

  datatype Header = Header(version: nat, padding: nat, count: nat, pktType: byte, length: u16)

  /** A report block as read; the fraction and the loss share a word. */
  datatype ReadBlock = ReadBlock(
    ssrc: u32, fraction: byte, lost: u32, lastSeq: u32, jitter: u32, lsr: u32, dlsr: u32)

  datatype Chunk = Chunk(ssrc: u32, items: seq<Item>)

  datatype Frame =
    | SrFrame(header: Header, ssrc: u32, info: SenderInfo, blocks: seq<ReadBlock>)
    | RrFrame(header: Header, ssrc: u32, blocks: seq<ReadBlock>)
    | SdesFrame(header: Header, chunks: seq<Chunk>)
    | ByeFrame(header: Header, ssrcs: seq<u32>)
    | AppFrame(header: Header, ssrc: u32, name: seq<byte>, payload: seq<byte>)

  /** Undefined stands for a read past the receive buffer or a payload length that wraps
      around, where the C++ code has no defined behaviour. */
  datatype Status = Success | InvalidValue | NotSupported | Undefined

  // ---------- what the loops compute ----------

  function ReadHeader(b: seq<byte>, p: nat): Header
    requires p + RTCP_HEADER_SIZE <= |b|
  {
    Header(b[p] / 64, b[p] / 32 % 2, b[p] % 32, b[p + 1], GetBe16(b, p + 2))
  }

  function LengthInBytes(length: u16): nat {
    (length + 1) * 4
  }

  /** The mask 0xfffffd keeps the low 24 bits except bit 1. */
  function MaskLost(word: u32): u32 {
    SecondBit(word / 0x100_0000, word % 0x100_0000);
    word % 0x100_0000 - 2 * (word / 2 % 2)
  }

  /** Bitwise and. */
  function And(x: nat, y: nat): nat {
    if x == 0 || y == 0 then 0 else 2 * And(x / 2, y / 2) + (if x % 2 == 1 && y % 2 == 1 then 1 else 0)
  }

  lemma {:induction false} AndOnes(x: nat, k: nat)
    ensures And(x, Pow2(k) - 1) == x % Pow2(k)
  {
    if k > 0 {
      var h := Pow2(k - 1);
      AndOnes(x / 2, k - 1);
      assert (2 * h - 1) / 2 == h - 1 && (2 * h - 1) % 2 == 1;
      HalvePower(x, h);
      assert x % (2 * h) == 2 * (x / 2 % h) + x % 2;
    }
  }

  /** The mask is that of the source. */
  lemma MaskIsAnd(word: u32)
    ensures MaskLost(word) == And(word, 0xfffffd)
  {
    var w := word / 4;
    assert Pow2(22) == 0x40_0000 by { PowersOfTwo(); assert Pow2(24) == 4 * Pow2(22); }
    AndOnes(w, 22);
    AndSteps(word);
    MaskSteps(word);
  }

  lemma AndSteps(word: nat)
    ensures And(word, 0xfffffd) == 4 * And(word / 4, 0x3f_ffff) + word % 2
  {
    assert And(word / 2, 0x7f_fffe) == 2 * And(word / 4, 0x3f_ffff);
  }

  lemma MaskSteps(word: u32)
    ensures word % 0x100_0000 - 2 * (word / 2 % 2) == 4 * (word / 4 % 0x40_0000) + word % 2
  {
    assert word % 4 == 2 * (word / 2 % 2) + word % 2;
    assert word % 0x100_0000 == 4 * (word / 4 % 0x40_0000) + word % 4;
  }

  function ReadBlockAt(b: seq<byte>, p: nat): ReadBlock
    requires p + REPORT_BLOCK_SIZE <= |b|
  {
    var word := GetBe32(b, p + 4);
    ReadBlock(GetBe32(b, p), word / 0x100_0000, MaskLost(word), GetBe32(b, p + 8), GetBe32(b, p + 12),
              GetBe32(b, p + 16), GetBe32(b, p + 20))
  }

  function ReadBlocks(b: seq<byte>, p: nat, end: nat, count: nat): seq<ReadBlock>
    requires end <= |b|
    decreases count
  {
    if count == 0 || end < p + REPORT_BLOCK_SIZE then []
    else [ReadBlockAt(b, p)] + ReadBlocks(b, p + REPORT_BLOCK_SIZE, end, count - 1)
  }

  function ReadSenderInfo(b: seq<byte>, p: nat): SenderInfo
    requires p + SENDER_INFO_SIZE <= |b|
  {
    SenderInfo(GetBe32(b, p), GetBe32(b, p + 4), GetBe32(b, p + 8), GetBe32(b, p + 12), GetBe32(b, p + 16))
  }

  /** The items from p on, and where they end. */
  function ReadItems(b: seq<byte>, p: nat, end: nat): (r: (seq<Item>, nat))
    requires p <= end <= |b|
    ensures p <= r.1 <= end
    decreases end - p
  {
    if p + 2 > end || b[p] == 0 then ([], p)
    else
      var (kind, length) := (b[p], b[p + 1]);
      var data := if p + 2 + length <= end then b[p + 2..p + 2 + length] else [];
      var item := Item(kind, length, data);
      var (items, q) := ReadItems(b, p + 2 + |item.data|, end);
      ([item] + items, q)
  }

  /** Where the next chunk starts if the items of this one end at q. */
  function AfterItems(b: seq<byte>, q: nat): nat
    requires q < |b|
  {
    if b[q] == 0 then q + (4 - q % 4) else q
  }

  function ReadChunks(b: seq<byte>, p: nat, end: nat): Option<seq<Chunk>>
    requires p <= end + 4 && end <= |b|
    decreases end + 4 - p
  {
    if end < p + SSRC_CSRC_SIZE then Some([])
    else
      var (items, q) := ReadItems(b, p + SSRC_CSRC_SIZE, end);
      if q >= |b| then None
      else
        match ReadChunks(b, AfterItems(b, q), end)
        case None => None
        case Some(chunks) => Some([Chunk(GetBe32(b, p), items)] + chunks)
  }

  function ReadSsrcs(b: seq<byte>, p: nat, count: nat): seq<u32>
    requires p + SSRC_CSRC_SIZE * count <= |b|
    decreases count
  {
    if count == 0 then [] else [GetBe32(b, p)] + ReadSsrcs(b, p + SSRC_CSRC_SIZE, count - 1)
  }

  /** The packet with header h whose body runs from p to end; None if undefined. */
  function ReadPacket(b: seq<byte>, h: Header, p: nat, end: nat): Option<Frame>
    requires p <= end <= |b| && FT_SR <= h.pktType <= FT_APP
  {
    if h.pktType == FT_SR then
      if p + 24 > |b| then None
      else Some(SrFrame(h, GetBe32(b, p), ReadSenderInfo(b, p + 4), ReadBlocks(b, p + 24, end, h.count)))
    else if h.pktType == FT_RR then
      if p + 4 > |b| then None
      else Some(RrFrame(h, GetBe32(b, p), ReadBlocks(b, p + 4, end, h.count)))
    else if h.pktType == FT_SDES then
      match ReadChunks(b, p, end) case None => None case Some(chunks) => Some(SdesFrame(h, chunks))
    else if h.pktType == FT_BYE then
      if p + SSRC_CSRC_SIZE * h.count > |b| then None else Some(ByeFrame(h, ReadSsrcs(b, p, h.count)))
    else
      if p + 8 > end then None
      else Some(AppFrame(h, GetBe32(b, p), b[p + 4..p + 8], b[p + 8..end]))
  }

  /** The packets from p on, and why the walk ended; packets before an error stay delivered. */
  function Walk(b: seq<byte>, p: nat, remaining: nat): (seq<Frame>, Status)
    requires p + remaining <= |b|
    decreases remaining
  {
    if remaining == 0 then ([], Success)
    else if remaining < RTCP_HEADER_SIZE then ([], InvalidValue)
    else
      var h := ReadHeader(b, p);
      var size := LengthInBytes(h.length);
      if h.version != 2 then ([], InvalidValue)
      else if remaining < size then ([], NotSupported)
      else if h.padding != 0 then ([], InvalidValue)
      else if h.pktType < FT_SR || h.pktType > FT_APP then ([], InvalidValue)
      else
        match ReadPacket(b, h, p + RTCP_HEADER_SIZE, p + size)
        case None => ([], Undefined)
        case Some(frame) =>
          var (frames, status) := Walk(b, p + size, remaining - size);
          ([frame] + frames, status)
  }

  // ---------- reading what was written ----------

  /** What arrives of a report block. */
  function Received(r: ReportBlock): ReadBlock {
    LossWordBits(r.fraction, r.lost);
    ReadBlock(r.ssrc, Or(r.fraction, r.lost / 0x100_0000), MaskLost(r.lost), LastSeq(r), r.jitter, r.lsr, r.dlsr)
  }

  /** The loss figures of a block survive exactly if the loss fits 24 bits and has bit 1 clear. */
  lemma LossSurvives(r: ReportBlock)
    ensures Received(r).fraction == r.fraction && Received(r).lost == r.lost <==>
            r.lost < 0x100_0000 && r.lost / 2 % 2 == 0
  {
    if r.lost < 0x100_0000 {
      assert r.lost / 0x100_0000 == 0;
    }
  }

  function ReceivedAll(blocks: seq<ReportBlock>): (r: seq<ReadBlock>)
    ensures |r| == |blocks| && forall i :: 0 <= i < |r| ==> r[i] == Received(blocks[i])
  {
    if blocks == [] then [] else [Received(blocks[0])] + ReceivedAll(blocks[1..])
  }

  function HeaderOf(p: Packet): Header
    requires Writable(p)
  {
    var length := SizeOf(p) / 4 - 1;
    match p
    case Report(_, info, blocks) => Header(2, 0, |blocks|, if info.Some? then FT_SR else FT_RR, length)
    case Sdes(count, _, _) => Header(2, 0, count, FT_SDES, length)
    case App(_, app) => Header(2, 0, app.subtype % 32, FT_APP, length)
    case Bye(ssrcs) => Header(2, 0, |ssrcs| % 32, FT_BYE, length)
  }

  /** The frame the reader makes of a packet: losses as they arrive, subtypes cut to five bits,
      and of a BYE as many sources as its 5-bit count says. */
  function FrameOf(p: Packet): Frame
    requires Writable(p)
  {
    match p
    case Report(ssrc, info, blocks) =>
      if info.Some? then SrFrame(HeaderOf(p), ssrc, info.value, ReceivedAll(blocks))
      else RrFrame(HeaderOf(p), ssrc, ReceivedAll(blocks))
    case Sdes(_, ssrc, items) => SdesFrame(HeaderOf(p), [Chunk(ssrc, items)])
    case App(ssrc, app) => AppFrame(HeaderOf(p), ssrc, app.name, app.payload)
    case Bye(ssrcs) => ByeFrame(HeaderOf(p), ssrcs[..|ssrcs| % 32])
  }

  /** The block as a reader should find it. */
  function Faithful(r: ReportBlock): ReadBlock {
    ReadBlock(r.ssrc, r.fraction, r.lost, LastSeq(r), r.jitter, r.lsr, r.dlsr)
  }

  function AllFaithful(blocks: seq<ReportBlock>): (r: seq<ReadBlock>)
    ensures |r| == |blocks| && forall i :: 0 <= i < |r| ==> r[i] == Faithful(blocks[i])
  {
    seq(|blocks|, i requires 0 <= i < |blocks| => Faithful(blocks[i]))
  }

  /** The packet itself, with all it was given to carry. */
  function ExactFrame(p: Packet): Frame
    requires Writable(p)
  {
    var length := SizeOf(p) / 4 - 1;
    match p
    case Report(ssrc, info, blocks) =>
      if info.Some? then SrFrame(Header(2, 0, |blocks|, FT_SR, length), ssrc, info.value, AllFaithful(blocks))
      else RrFrame(Header(2, 0, |blocks|, FT_RR, length), ssrc, AllFaithful(blocks))
    case Sdes(count, ssrc, items) => SdesFrame(Header(2, 0, count, FT_SDES, length), [Chunk(ssrc, items)])
    case App(ssrc, app) => AppFrame(Header(2, 0, app.subtype, FT_APP, length), ssrc, app.name, app.payload)
    case Bye(ssrcs) => ByeFrame(Header(2, 0, |ssrcs|, FT_BYE, length), ssrcs)
  }

  predicate LossFits(r: ReportBlock) {
    r.lost < 0x100_0000 && r.lost / 2 % 2 == 0
  }

  predicate LossesFit(blocks: seq<ReportBlock>) {
    forall i :: 0 <= i < |blocks| ==> LossFits(blocks[i])
  }

  /** What the wire has room for, in the order of the packet types. */
  predicate Survives(p: Packet) {
    match p
    case Report(_, _, blocks) => LossesFit(blocks)
    case Sdes(_, _, items) => Kinded(items, 0, |items|)
    case App(_, app) => app.subtype < 32
    case Bye(ssrcs) => |ssrcs| < 32
  }

  lemma BlocksSurvive(blocks: seq<ReportBlock>)
    ensures ReceivedAll(blocks) == AllFaithful(blocks) <==> LossesFit(blocks)
  {
    hide Or, MaskLost;
    forall i | 0 <= i < |blocks|
      ensures Received(blocks[i]) == Faithful(blocks[i]) <==> LossFits(blocks[i])
    {
      LossSurvives(blocks[i]);
    }
    if ReceivedAll(blocks) == AllFaithful(blocks) {
      forall i | 0 <= i < |blocks|
        ensures LossFits(blocks[i])
      {
        assert ReceivedAll(blocks)[i] == AllFaithful(blocks)[i];
      }
    }
  }

  /** Of packets the reader understands, exactly those that survive are read as they are. */
  lemma FrameIsExact(p: Packet)
    requires Writable(p) && Readable(p)
    ensures FrameOf(p) == ExactFrame(p) <==> Survives(p)
  {
    hide ReceivedAll, AllFaithful, LossesFit;
    match p
    case Report(_, _, blocks) => BlocksSurvive(blocks);
    case Sdes(_, _, _) =>
    case App(_, _) =>
    case Bye(ssrcs) =>
      if |ssrcs| < 32 {
        assert ssrcs[..|ssrcs|] == ssrcs;
      }
  }

  /** No item starts with the octet that ends a chunk. */
  predicate Readable(p: Packet) {
    p.Sdes? ==> Kinded(p.items, 0, |p.items|)
  }

  lemma ReadsHeader(b: seq<byte>, p: nat, size: nat, second: byte, frameType: byte)
    requires RTCP_HEADER_SIZE <= size && HeaderAccepts(size) && second < 32
    requires At(b, p, HeaderBytes(size, second, frameType))
    ensures ReadHeader(b, p) == Header(2, 0, second, frameType, size / 4 - 1)
    ensures LengthInBytes(ReadHeader(b, p).length) == size
  {
    var w := HeaderBytes(size, second, frameType);
    assert b[p] == b[p..p + 4][0] == w[0] && b[p + 1] == b[p..p + 4][1] == w[1];
    AtSplit(b, p, [w[0], w[1]], Be16(size / 4 - 1));
    Be16RoundTrip(size / 4 - 1, b, p + 2);
  }

  lemma ReadsBlock(b: seq<byte>, p: nat, r: ReportBlock)
    requires At(b, p, BlockBytes(r))
    ensures ReadBlockAt(b, p) == Received(r)
  {
    var word := LossWord(r.fraction, r.lost);
    var (w0, w1, w2, w3, w4, w5) :=
      (Be32(r.ssrc), Be32(word), Be32(LastSeq(r)), Be32(r.jitter), Be32(r.lsr), Be32(r.dlsr));
    AtSplit(b, p, w0 + w1 + w2 + w3 + w4, w5);
    AtSplit(b, p, w0 + w1 + w2 + w3, w4);
    AtSplit(b, p, w0 + w1 + w2, w3);
    AtSplit(b, p, w0 + w1, w2);
    AtSplit(b, p, w0, w1);
    Be32RoundTrip(r.ssrc, b, p);
    Be32RoundTrip(word, b, p + 4);
    Be32RoundTrip(LastSeq(r), b, p + 8);
    Be32RoundTrip(r.jitter, b, p + 12);
    Be32RoundTrip(r.lsr, b, p + 16);
    Be32RoundTrip(r.dlsr, b, p + 20);
    LossWordSplits(r.fraction, r.lost);
  }

  lemma LossWordSplits(fraction: byte, lost: u32)
    ensures LossWord(fraction, lost) / 0x100_0000 == Or(fraction, lost / 0x100_0000)
    ensures MaskLost(LossWord(fraction, lost)) == MaskLost(lost)
  {
    LossWordBits(fraction, lost);
    MaskIsLocal(Or(fraction, lost / 0x100_0000), lost);
  }

  lemma MaskIsLocal(high: byte, lost: u32)
    ensures var word := high * 0x100_0000 + lost % 0x100_0000;
            word / 0x100_0000 == high && MaskLost(word) == MaskLost(lost)
  {
    var word := high * 0x100_0000 + lost % 0x100_0000;
    DivModUnique(word, 0x100_0000, high, lost % 0x100_0000);
    SecondBit(high, lost % 0x100_0000);
    SecondBit(lost / 0x100_0000, lost % 0x100_0000);
  }

  lemma SecondBit(high: nat, low: nat)
    ensures (high * 0x100_0000 + low) / 2 % 2 == low / 2 % 2
  {
    assert (high * 0x100_0000 + low) / 2 == high * 0x80_0000 + low / 2;
  }

  lemma {:induction false} BlocksCons(r: ReportBlock, blocks: seq<ReportBlock>)
    ensures BlocksBytes([r] + blocks) == BlockBytes(r) + BlocksBytes(blocks)
  {
    if blocks == [] {
      assert ([r] + blocks)[..0] == [] && [] + BlockBytes(r) == BlockBytes(r) + [];
    } else {
      var i := |blocks| - 1;
      BlocksCons(r, blocks[..i]);
      assert ([r] + blocks)[..|blocks|] == [r] + blocks[..i];
      Associate(BlockBytes(r), BlocksBytes(blocks[..i]), BlockBytes(blocks[i]));
    }
  }

  lemma {:induction false} ReadsBlocks(b: seq<byte>, p: nat, end: nat, blocks: seq<ReportBlock>)
    requires At(b, p, BlocksBytes(blocks)) && p + |BlocksBytes(blocks)| == end
    ensures ReadBlocks(b, p, end, |blocks|) == ReceivedAll(blocks)
    decreases |blocks|
  {
    if blocks != [] {
      assert blocks == [blocks[0]] + blocks[1..];
      BlocksCons(blocks[0], blocks[1..]);
      AtSplit(b, p, BlockBytes(blocks[0]), BlocksBytes(blocks[1..]));
      ReadsBlock(b, p, blocks[0]);
      ReadsBlocks(b, p + REPORT_BLOCK_SIZE, end, blocks[1..]);
      assert end >= p + REPORT_BLOCK_SIZE;
    }
  }

  lemma ReadsSenderInfo(b: seq<byte>, p: nat, i: SenderInfo)
    requires At(b, p, SenderInfoBytes(i))
    ensures ReadSenderInfo(b, p) == i
  {
    var (w0, w1, w2, w3, w4) := (Be32(i.ntpMsw), Be32(i.ntpLsw), Be32(i.rtpTs), Be32(i.pktCnt), Be32(i.byteCnt));
    AtSplit(b, p, w0 + w1 + w2 + w3, w4);
    AtSplit(b, p, w0 + w1 + w2, w3);
    AtSplit(b, p, w0 + w1, w2);
    AtSplit(b, p, w0, w1);
    Be32RoundTrip(i.ntpMsw, b, p);
    Be32RoundTrip(i.ntpLsw, b, p + 4);
    Be32RoundTrip(i.rtpTs, b, p + 8);
    Be32RoundTrip(i.pktCnt, b, p + 12);
    Be32RoundTrip(i.byteCnt, b, p + 16);
  }

  lemma {:induction false} ItemsCons(item: Item, items: seq<Item>)
    ensures ItemsBytes([item] + items) == ItemBytes(item) + ItemsBytes(items)
  {
    if items == [] {
      assert ([item] + items)[..0] == [] && [] + ItemBytes(item) == ItemBytes(item) + [];
    } else {
      var i := |items| - 1;
      ItemsCons(item, items[..i]);
      assert ([item] + items)[..|items|] == [item] + items[..i];
      Associate(ItemBytes(item), ItemsBytes(items[..i]), ItemBytes(items[i]));
    }
  }

  lemma ItemThenRest(b: seq<byte>, p: nat, end: nat, item: Item)
    requires p + 2 + item.length <= end <= |b| && item.kind != 0 && |item.data| == item.length
    requires At(b, p, ItemBytes(item))
    ensures var (items, q) := ReadItems(b, p + 2 + item.length, end);
            ReadItems(b, p, end) == ([item] + items, q)
  {
    AtSplit(b, p, [item.kind, item.length], item.data);
    assert b[p] == b[p..p + 2][0] == item.kind && b[p + 1] == b[p..p + 2][1] == item.length;
  }

  /** The items are read back, up to the zero octet that ends the chunk. */
  lemma {:induction false} ReadsItems(b: seq<byte>, p: nat, end: nat, items: seq<Item>)
    requires At(b, p, ItemsBytes(items)) && p + |ItemsBytes(items)| < end <= |b|
    requires b[p + |ItemsBytes(items)|] == 0 && GoodItems(items) && Kinded(items, 0, |items|)
    ensures ReadItems(b, p, end) == (items, p + |ItemsBytes(items)|)
    decreases |items|
  {
    hide At;
    if items != [] {
      var (item, rest) := (items[0], items[1..]);
      assert items == [item] + rest;
      ItemsCons(item, rest);
      AtSplit(b, p, ItemBytes(item), ItemsBytes(rest));
      ReadsItems(b, p + |ItemBytes(item)|, end, rest);
      ItemThenRest(b, p, end, item);
    }
  }

  lemma ChunkAt(b: seq<byte>, p: nat, ssrc: u32, items: seq<Item>)
    requires At(b, p, ChunkBytes(ssrc, items))
    ensures At(b, p, Be32(ssrc)) && At(b, p + 4, ItemsBytes(items))
    ensures var (q, k) := (p + 4 + |ItemsBytes(items)|, ChunkPadding(|ItemsBytes(items)|));
            q + k <= |b| && b[q] == 0
  {
    var (n, k) := (|ItemsBytes(items)|, ChunkPadding(|ItemsBytes(items)|));
    AtSplit(b, p, Be32(ssrc) + ItemsBytes(items), Zeros(k));
    AtSplit(b, p, Be32(ssrc), ItemsBytes(items));
    assert b[p + 4 + n] == b[p + 4 + n..p + 4 + n + k][0];
  }

  /** The reader recovers the chunk and stops exactly at the end of the packet. */
  lemma ReadsChunk(b: seq<byte>, p: nat, ssrc: u32, items: seq<Item>)
    requires p % 4 == 0 && GoodItems(items) && Kinded(items, 0, |items|)
    requires At(b, p, ChunkBytes(ssrc, items))
    ensures ReadChunks(b, p, p + |ChunkBytes(ssrc, items)|) == Some([Chunk(ssrc, items)])
  {
    hide ItemsBytes, ReadItems, ReadChunks, Kinded, GoodItems;
    var n := |ItemsBytes(items)|;
    ChunkAt(b, p, ssrc, items);
    Be32RoundTrip(ssrc, b, p);
    ReadsItems(b, p + 4, p + 4 + n + ChunkPadding(n), items);
    PaddingAligned(p, n);
    OneChunk(b, p, p + 4 + n + ChunkPadding(n), items, p + 4 + n);
  }

  /** No item read is of kind 0. */
  lemma {:induction false} ReadItemsKinds(b: seq<byte>, p: nat, end: nat)
    requires p <= end <= |b|
    ensures var items := ReadItems(b, p, end).0; Kinded(items, 0, |items|)
    decreases end - p
  {
    if p + 2 <= end && b[p] != 0 {
      var item := ReadItems(b, p, end).0[0];
      ReadItemsKinds(b, p + 2 + |item.data|, end);
      KindedCons(item, ReadItems(b, p + 2 + |item.data|, end).0);
    }
  }

  predicate ChunksKinded(chunks: seq<Chunk>) {
    forall i :: 0 <= i < |chunks| ==> Kinded(chunks[i].items, 0, |chunks[i].items|)
  }

  lemma {:induction false} ReadChunksKinds(b: seq<byte>, p: nat, end: nat)
    requires p <= end + 4 && end <= |b| && ReadChunks(b, p, end).Some?
    ensures ChunksKinded(ReadChunks(b, p, end).value)
    decreases end + 4 - p
  {
    hide ReadItems, Kinded;
    if p + SSRC_CSRC_SIZE <= end {
      ReadItemsKinds(b, p + SSRC_CSRC_SIZE, end);
      ReadChunksKinds(b, AfterItems(b, ReadItems(b, p + SSRC_CSRC_SIZE, end).1), end);
    }
  }

  /** A chunk is read back if and only if none of its items is of kind 0. */
  lemma ReadsChunkExactly(b: seq<byte>, p: nat, ssrc: u32, items: seq<Item>)
    requires p % 4 == 0 && GoodItems(items) && At(b, p, ChunkBytes(ssrc, items))
    ensures ReadChunks(b, p, p + |ChunkBytes(ssrc, items)|) == Some([Chunk(ssrc, items)]) <==>
            Kinded(items, 0, |items|)
  {
    hide ReadChunks, Kinded, ChunksKinded, ItemsBytes;
    var end := p + |ChunkBytes(ssrc, items)|;
    OneChunkKinded(ssrc, items);
    if Kinded(items, 0, |items|) {
      ReadsChunk(b, p, ssrc, items);
    } else if ReadChunks(b, p, end).Some? {
      ReadChunksKinds(b, p, end);
    }
  }

  lemma OneChunkKinded(ssrc: u32, items: seq<Item>)
    ensures ChunksKinded([Chunk(ssrc, items)]) <==> Kinded(items, 0, |items|)
  {
    hide Kinded;
    assert [Chunk(ssrc, items)][0].items == items;
  }

  lemma {:induction false} ItemsPrefixAt(b: seq<byte>, p: nat, items: seq<Item>, n: nat)
    requires At(b, p, ItemsBytes(items)) && n <= |items|
    ensures At(b, p, ItemsBytes(items[..n])) && |ItemsBytes(items[..n])| <= |ItemsBytes(items)|
  {
    hide At;
    if n == |items| {
      assert items[..n] == items;
    } else {
      var last := |items| - 1;
      AtSplit(b, p, ItemsBytes(items[..last]), ItemBytes(items[last]));
      ItemsPrefixAt(b, p, items[..last], n);
      assert items[..last][..n] == items[..n];
    }
  }

  /** The items of a chunk are read up to the first of kind 0. */
  lemma ReadsUpToZero(b: seq<byte>, p: nat, end: nat, items: seq<Item>, k: nat)
    requires At(b, p, ItemsBytes(items)) && p + |ItemsBytes(items)| <= end <= |b| && GoodItems(items)
    requires k < |items| && Kinded(items, 0, k) && items[k].kind == 0
    ensures ReadItems(b, p, end).0 == items[..k]
  {
    var (head, zero) := (ItemsBytes(items[..k]), ItemBytes(items[k]));
    ItemsPrefixAt(b, p, items, k + 1);
    assert items[..k + 1][..k] == items[..k];
    AtSplit(b, p, head, zero);
    assert b[p + |head|] == b[p + |head|..p + |head| + |zero|][0] == 0;
    ReadsItems(b, p, end, items[..k]);
  }

  /** set_sdes_items keeps an item of kind 0 that follows a CNAME, and the reader loses it. */
  lemma ZeroKindIsLost(b: seq<byte>, p: nat, ssrc: u32, cname: seq<byte>, note: seq<byte>)
    requires p % 4 == 0 && |cname| <= 255 && |note| <= 255
    requires var items := [Item(SDES_CNAME, |cname|, cname), Item(0, |note|, note)];
             At(b, p, ChunkBytes(ssrc, Kept(items, 2)))
    ensures var items := [Item(SDES_CNAME, |cname|, cname), Item(0, |note|, note)];
            var end := p + |ChunkBytes(ssrc, items)|;
            Kept(items, 2) == items && ReadItems(b, p + 4, end).0 == items[..1] &&
            ReadChunks(b, p, end) != Some([Chunk(ssrc, items)])
  {
    hide ItemsBytes, ReadItems, ReadChunks, Be32, At;
    var items := [Item(SDES_CNAME, |cname|, cname), Item(0, |note|, note)];
    CnameKeepsBoth(items[0], items[1]);
    ChunkAt(b, p, ssrc, items);
    ReadsUpToZero(b, p + 4, p + |ChunkBytes(ssrc, items)|, items, 1);
    ReadsChunkExactly(b, p, ssrc, items);
  }

  lemma CnameKeepsBoth(cname: Item, note: Item)
    requires cname.kind == SDES_CNAME
    ensures Kept([cname, note], 2) == [cname, note]
  {
    var items := [cname, note];
    assert FirstCname(items) == 0;
    assert Kept(items, 0) == [] && Kept(items, 1) == items[..1];
  }

  lemma PaddingAligned(p: nat, n: nat)
    requires p % 4 == 0
    ensures (p + 4 + n) % 4 == n % 4
  {}

  lemma OneChunk(b: seq<byte>, p: nat, end: nat, items: seq<Item>, q: nat)
    requires p + 4 <= end <= |b| && q < |b|
    requires ReadItems(b, p + 4, end) == (items, q) && AfterItems(b, q) == end
    ensures ReadChunks(b, p, end) == Some([Chunk(GetBe32(b, p), items)])
  {
    assert ReadChunks(b, end, end) == Some([]);
    assert [Chunk(GetBe32(b, p), items)] + [] == [Chunk(GetBe32(b, p), items)];
  }

  lemma {:induction false} SsrcsCons(ssrc: u32, ssrcs: seq<u32>)
    ensures SsrcsBytes([ssrc] + ssrcs) == Be32(ssrc) + SsrcsBytes(ssrcs)
  {
    if ssrcs == [] {
      assert ([ssrc] + ssrcs)[..0] == [] && [] + Be32(ssrc) == Be32(ssrc) + [];
    } else {
      var i := |ssrcs| - 1;
      SsrcsCons(ssrc, ssrcs[..i]);
      assert ([ssrc] + ssrcs)[..|ssrcs|] == [ssrc] + ssrcs[..i];
      Associate(Be32(ssrc), SsrcsBytes(ssrcs[..i]), Be32(ssrcs[i]));
    }
  }

  lemma {:induction false} ReadsSsrcs(b: seq<byte>, p: nat, count: nat, ssrcs: seq<u32>)
    requires At(b, p, SsrcsBytes(ssrcs)) && count <= |ssrcs|
    ensures ReadSsrcs(b, p, count) == ssrcs[..count]
    decreases count
  {
    if count != 0 {
      assert ssrcs == [ssrcs[0]] + ssrcs[1..];
      SsrcsCons(ssrcs[0], ssrcs[1..]);
      AtSplit(b, p, Be32(ssrcs[0]), SsrcsBytes(ssrcs[1..]));
      Be32RoundTrip(ssrcs[0], b, p);
      ReadsSsrcs(b, p + SSRC_CSRC_SIZE, count - 1, ssrcs[1..]);
      assert ssrcs[..count] == [ssrcs[0]] + ssrcs[1..][..count - 1];
    }
  }

  /** A packet as the walk sees it: a size to move on by and a frame to deliver. */
  datatype Stride = Stride(size: nat, frame: Frame)

  function StrideOf(pkt: Packet): Stride
    requires Writable(pkt)
  {
    Stride(SizeOf(pkt), FrameOf(pkt))
  }

  /** The header and the body at p are read as those of the frame. */
  ghost predicate ReadsAs(b: seq<byte>, p: nat, s: Stride) {
    var h := s.frame.header;
    && RTCP_HEADER_SIZE <= s.size && p + s.size <= |b| && ReadHeader(b, p) == h && LengthInBytes(h.length) == s.size
    && h.version == 2 && h.padding == 0 && FT_SR <= h.pktType <= FT_APP
    && ReadPacket(b, h, p + RTCP_HEADER_SIZE, p + s.size) == Some(s.frame)
  }

  lemma ReadsHead(b: seq<byte>, p: nat, info: Option<SenderInfo>, reports: nat, ssrc: u32)
    requires reports < 32 && HeaderAccepts(ReportSize(info.Some?, false, reports))
    requires At(b, p, HeadBytes(info, reports, ssrc))
    ensures ReadHeader(b, p) == Header(2, 0, reports, if info.Some? then FT_SR else FT_RR,
                                       ReportSize(info.Some?, false, reports) / 4 - 1)
    ensures LengthInBytes(ReadHeader(b, p).length) == ReportSize(info.Some?, false, reports)
    ensures GetBe32(b, p + 4) == ssrc && (info.Some? ==> ReadSenderInfo(b, p + 8) == info.value)
  {
    var size := ReportSize(info.Some?, false, reports);
    match info {
      case None =>
        AtSplit(b, p, HeaderBytes(size, reports, FT_RR), Be32(ssrc));
        ReadsHeader(b, p, size, reports, FT_RR);
      case Some(i) =>
        AtSplit(b, p, HeaderBytes(size, reports, FT_SR) + Be32(ssrc), SenderInfoBytes(i));
        AtSplit(b, p, HeaderBytes(size, reports, FT_SR), Be32(ssrc));
        ReadsHeader(b, p, size, reports, FT_SR);
        ReadsSenderInfo(b, p + 8, i);
    }
    Be32RoundTrip(ssrc, b, p + 4);
  }

  /** The fields of a report stand at p. */
  ghost predicate ReportAt(b: seq<byte>, p: nat, ssrc: u32, info: Option<SenderInfo>, blocks: seq<ReportBlock>)
    requires |blocks| < 32
  {
    var size := ReportSize(info.Some?, false, |blocks|);
    && HeaderAccepts(size) && p + size <= |b|
    && ReadHeader(b, p) == Header(2, 0, |blocks|, if info.Some? then FT_SR else FT_RR, size / 4 - 1)
    && GetBe32(b, p + 4) == ssrc && (info.Some? ==> ReadSenderInfo(b, p + 8) == info.value)
    && ReadBlocks(b, p + (if info.Some? then 28 else 8), p + size, |blocks|) == ReceivedAll(blocks)
  }

  lemma FieldsMakeReport(b: seq<byte>, p: nat, ssrc: u32, info: Option<SenderInfo>, blocks: seq<ReportBlock>)
    requires |blocks| < 32 && ReportAt(b, p, ssrc, info, blocks)
    ensures Writable(Packet.Report(ssrc, info, blocks)) && ReadsAs(b, p, StrideOf(Packet.Report(ssrc, info, blocks)))
  {}

  lemma ReadsReport(b: seq<byte>, p: nat, ssrc: u32, info: Option<SenderInfo>, blocks: seq<ReportBlock>)
    requires |blocks| < 32 && HeaderAccepts(ReportSize(info.Some?, false, |blocks|))
    requires At(b, p, HeadBytes(info, |blocks|, ssrc))
    requires At(b, p + (if info.Some? then 28 else 8), BlocksBytes(blocks))
    ensures ReportAt(b, p, ssrc, info, blocks)
  {
    ReadsHead(b, p, info, |blocks|, ssrc);
    ReadsBlocks(b, p + (if info.Some? then 28 else 8), p + ReportSize(info.Some?, false, |blocks|), blocks);
  }

  lemma ReadsSdesHead(b: seq<byte>, p: nat, size: nat, count: byte, body: seq<byte>)
    requires RTCP_HEADER_SIZE <= size && HeaderAccepts(size) && count < 32
    requires At(b, p, HeaderBytes(size, count, FT_SDES) + body)
    ensures ReadHeader(b, p) == Header(2, 0, count, FT_SDES, size / 4 - 1)
    ensures LengthInBytes(ReadHeader(b, p).length) == size && At(b, p + 4, body)
  {
    AtSplit(b, p, HeaderBytes(size, count, FT_SDES), body);
    ReadsHeader(b, p, size, count, FT_SDES);
  }

  lemma FieldsMakeSdes(b: seq<byte>, p: nat, size: nat, count: byte, ssrc: u32, items: seq<Item>)
    requires count < 32 && GoodItems(items) && size == SdesPacketSize(items) && HeaderAccepts(size) && p + size <= |b|
    requires ReadHeader(b, p) == Header(2, 0, count, FT_SDES, size / 4 - 1)
    requires ReadChunks(b, p + 4, p + size) == Some([Chunk(ssrc, items)])
    ensures Writable(Sdes(count, ssrc, items)) && ReadsAs(b, p, StrideOf(Sdes(count, ssrc, items)))
  {}

  lemma ReadsSdes(b: seq<byte>, p: nat, count: byte, ssrc: u32, items: seq<Item>)
    requires var pkt := Sdes(count, ssrc, items);
             Writable(pkt) && Readable(pkt) && At(b, p, PacketBytes(pkt)) && p % 4 == 0
    ensures ReadsAs(b, p, StrideOf(Sdes(count, ssrc, items)))
  {
    hide ReadChunks, HeaderBytes, ReadHeader, ChunkBytes;
    var size := SdesPacketSize(items);
    ReadsSdesHead(b, p, size, count, ChunkBytes(ssrc, items));
    ReadsChunk(b, p + 4, ssrc, items);
    FieldsMakeSdes(b, p, size, count, ssrc, items);
  }

  lemma ReadsApp(b: seq<byte>, p: nat, ssrc: u32, app: AppPacket)
    requires var pkt := App(ssrc, app); Writable(pkt) && At(b, p, PacketBytes(pkt))
    ensures ReadsAs(b, p, StrideOf(App(ssrc, app)))
  {
    var size := AppPacketSize(|app.payload|);
    var head := HeaderBytes(size, app.subtype % 32, FT_APP);
    AtSplit(b, p, head + Be32(ssrc), app.name + app.payload);
    AtSplit(b, p, head, Be32(ssrc));
    AtSplit(b, p + 8, app.name, app.payload);
    ReadsHeader(b, p, size, app.subtype % 32, FT_APP);
    Be32RoundTrip(ssrc, b, p + 4);
  }

  lemma ReadsBye(b: seq<byte>, p: nat, ssrcs: seq<u32>)
    requires var pkt := Bye(ssrcs); Writable(pkt) && At(b, p, PacketBytes(pkt))
    ensures ReadsAs(b, p, StrideOf(Bye(ssrcs)))
  {
    var size := ByePacketSize(ssrcs);
    AtSplit(b, p, HeaderBytes(size, |ssrcs| % 32, FT_BYE), SsrcsBytes(ssrcs));
    ReadsHeader(b, p, size, |ssrcs| % 32, FT_BYE);
    ReadsSsrcs(b, p + 4, |ssrcs| % 32, ssrcs);
  }

  lemma ReadsPacket(b: seq<byte>, p: nat, pkt: Packet)
    requires Writable(pkt) && Readable(pkt) && At(b, p, PacketBytes(pkt)) && p % 4 == 0
    ensures ReadsAs(b, p, StrideOf(pkt))
  {
    match pkt
    case Report(ssrc, info, blocks) =>
      AtSplit(b, p, HeadBytes(info, |blocks|, ssrc), BlocksBytes(blocks));
      ReadsReport(b, p, ssrc, info, blocks);
      FieldsMakeReport(b, p, ssrc, info, blocks);
    case Sdes(count, ssrc, items) => ReadsSdes(b, p, count, ssrc, items);
    case App(ssrc, app) => ReadsApp(b, p, ssrc, app);
    case Bye(ssrcs) => ReadsBye(b, p, ssrcs);
  }

  /** From p, with rest octets after it, the walk delivers the frame and moves on by its size. */
  ghost predicate MovesOn(b: seq<byte>, p: nat, s: Stride, rest: nat)
    requires p + s.size + rest <= |b|
  {
    Walk(b, p, s.size + rest) == ([s.frame] + Walk(b, p + s.size, rest).0, Walk(b, p + s.size, rest).1)
  }

  ghost predicate Advances(b: seq<byte>, p: nat, s: Stride) {
    forall rest: nat | p + s.size + rest <= |b| :: MovesOn(b, p, s, rest)
  }

  function Length(strides: seq<Stride>): nat {
    if strides == [] then 0 else strides[0].size + Length(strides[1..])
  }

  function Frames(strides: seq<Stride>): seq<Frame> {
    if strides == [] then [] else [strides[0].frame] + Frames(strides[1..])
  }

  ghost predicate AdvancesAlong(b: seq<byte>, p: nat, strides: seq<Stride>)
    decreases |strides|
  {
    strides == [] || (Advances(b, p, strides[0]) && AdvancesAlong(b, p + strides[0].size, strides[1..]))
  }

  lemma {:induction false} WalksBeyond(b: seq<byte>, p: nat, strides: seq<Stride>, rest: nat)
    requires p + Length(strides) + rest <= |b| && AdvancesAlong(b, p, strides)
    ensures Walk(b, p, Length(strides) + rest).0 == Frames(strides) + Walk(b, p + Length(strides), rest).0
    ensures Walk(b, p, Length(strides) + rest).1 == Walk(b, p + Length(strides), rest).1
    decreases |strides|
  {
    hide Walk;
    if strides != [] {
      WalksBeyond(b, p + strides[0].size, strides[1..], rest);
      assert MovesOn(b, p, strides[0], Length(strides[1..]) + rest);
    }
  }

  lemma WalksAlong(b: seq<byte>, p: nat, strides: seq<Stride>)
    requires p + Length(strides) <= |b| && AdvancesAlong(b, p, strides)
    ensures Walk(b, p, Length(strides)) == (Frames(strides), Success)
  {
    hide Walk;
    WalksBeyond(b, p, strides, 0);
    NothingToWalk(b, p + Length(strides));
    assert Frames(strides) + [] == Frames(strides);
  }

  /** Packets the walk can read stand one after the other from p on. */
  ghost predicate ReadsAlong(b: seq<byte>, p: nat, strides: seq<Stride>)
    decreases |strides|
  {
    strides == [] || (ReadsAs(b, p, strides[0]) && ReadsAlong(b, p + strides[0].size, strides[1..]))
  }

  lemma FirstStride(b: seq<byte>, p: nat, n: nat) returns (s: Stride)
    requires 0 < n && p + n <= |b| && Walk(b, p, n).1 == Success
    ensures ReadsAs(b, p, s) && s.size <= n && Walk(b, p + s.size, n - s.size).1 == Success
    ensures Walk(b, p, n).0 == [s.frame] + Walk(b, p + s.size, n - s.size).0
  {
    hide ReadPacket;
    var h := ReadHeader(b, p);
    var size := LengthInBytes(h.length);
    s := Stride(size, ReadPacket(b, h, p + RTCP_HEADER_SIZE, p + size).value);
    FrameKeepsHeader(b, h, p + RTCP_HEADER_SIZE, p + size);
  }

  lemma {:induction false} SuccessSplits(b: seq<byte>, p: nat, n: nat) returns (strides: seq<Stride>)
    requires p + n <= |b| && Walk(b, p, n).1 == Success
    ensures ReadsAlong(b, p, strides) && Length(strides) == n && Frames(strides) == Walk(b, p, n).0
    decreases n
  {
    hide Walk, ReadsAs;
    if n == 0 {
      NothingToWalk(b, p);
      strides := [];
    } else {
      var first := FirstStride(b, p, n);
      StrideIsLong(b, p, first);
      var rest := SuccessSplits(b, p + first.size, n - first.size);
      strides := [first] + rest;
      assert strides[1..] == rest;
    }
  }

  lemma StrideIsLong(b: seq<byte>, p: nat, s: Stride)
    requires ReadsAs(b, p, s)
    ensures s.size >= RTCP_HEADER_SIZE
  {}

  lemma NothingToWalk(b: seq<byte>, p: nat)
    requires p <= |b|
    ensures Walk(b, p, 0) == ([], Success)
  {}

  lemma FrameKeepsHeader(b: seq<byte>, h: Header, p: nat, end: nat)
    requires p <= end <= |b| && FT_SR <= h.pktType <= FT_APP
    ensures ReadPacket(b, h, p, end).Some? ==> ReadPacket(b, h, p, end).value.header == h
  {}

  lemma {:induction false} ReadsAlongAdvances(b: seq<byte>, p: nat, strides: seq<Stride>)
    requires ReadsAlong(b, p, strides)
    ensures AdvancesAlong(b, p, strides)
    decreases |strides|
  {
    if strides != [] {
      ReadsAndMovesOn(b, p, strides[0]);
      ReadsAlongAdvances(b, p + strides[0].size, strides[1..]);
    }
  }

  /** The walk succeeds exactly if the octets are packets it can read, one after the other and
      without a remainder, and it then delivers these. */
  lemma WalkIsExact(b: seq<byte>, p: nat, n: nat, frames: seq<Frame>)
    requires p + n <= |b|
    ensures Walk(b, p, n) == (frames, Success) <==>
            exists strides :: ReadsAlong(b, p, strides) && Length(strides) == n && Frames(strides) == frames
  {
    hide Walk, ReadsAlong;
    if Walk(b, p, n) == (frames, Success) {
      var strides := SuccessSplits(b, p, n);
    }
    if strides :| ReadsAlong(b, p, strides) && Length(strides) == n && Frames(strides) == frames {
      ReadsAlongAdvances(b, p, strides);
      WalksAlong(b, p, strides);
    }
  }

  /** Why a walk ends at q with n octets remaining. */
  ghost predicate EndsAt(b: seq<byte>, q: nat, n: nat, status: Status)
    requires q + n <= |b|
  {
    if n < RTCP_HEADER_SIZE then status == if n == 0 then Success else InvalidValue
    else
      var h := ReadHeader(b, q);
      var size := LengthInBytes(h.length);
      match status
      case Success => false
      case NotSupported => h.version == 2 && n < size
      case InvalidValue =>
        h.version != 2 || (size <= n && (h.padding != 0 || h.pktType < FT_SR || h.pktType > FT_APP))
      case Undefined =>
        && h.version == 2 && size <= n && h.padding == 0 && FT_SR <= h.pktType <= FT_APP
        && ReadPacket(b, h, q + RTCP_HEADER_SIZE, q + size) == None
  }

  lemma EndsOnce(b: seq<byte>, q: nat, n: nat, status: Status)
    requires q + n <= |b| && EndsAt(b, q, n, status)
    ensures Walk(b, q, n) == ([], status)
  {
    hide ReadPacket;
  }

  lemma EndOrStride(b: seq<byte>, p: nat, n: nat) returns (s: Option<Stride>)
    requires p + n <= |b|
    ensures s.None? ==> EndsAt(b, p, n, Walk(b, p, n).1) && Walk(b, p, n).0 == []
    ensures s.Some? ==> ReadsAs(b, p, s.value) && s.value.size <= n
  {
    hide ReadPacket;
    s := None;
    if n >= RTCP_HEADER_SIZE {
      var h := ReadHeader(b, p);
      var size := LengthInBytes(h.length);
      if h.version == 2 && size <= n && h.padding == 0 && FT_SR <= h.pktType <= FT_APP {
        var frame := ReadPacket(b, h, p + RTCP_HEADER_SIZE, p + size);
        if frame.Some? {
          FrameKeepsHeader(b, h, p + RTCP_HEADER_SIZE, p + size);
          s := Some(Stride(size, frame.value));
        }
      }
    }
  }

  /** The walk ends as said after these packets. */
  ghost predicate WalksTo(b: seq<byte>, p: nat, n: nat, strides: seq<Stride>, status: Status)
    requires p + n <= |b|
  {
    ReadsAlong(b, p, strides) && Length(strides) <= n && EndsAt(b, p + Length(strides), n - Length(strides), status)
  }

  lemma {:induction false} WalkSplits(b: seq<byte>, p: nat, n: nat) returns (strides: seq<Stride>)
    requires p + n <= |b|
    ensures WalksTo(b, p, n, strides, Walk(b, p, n).1) && Frames(strides) == Walk(b, p, n).0
    decreases n
  {
    hide Walk, ReadsAs, EndsAt;
    var first := EndOrStride(b, p, n);
    if first.None? {
      strides := [];
    } else {
      var s := first.value;
      StrideIsLong(b, p, s);
      ReadsAndMovesOn(b, p, s);
      assert MovesOn(b, p, s, n - s.size);
      var rest := WalkSplits(b, p + s.size, n - s.size);
      strides := [s] + rest;
      assert strides[1..] == rest;
    }
  }

  /** On any octets the walk delivers exactly the packets it can read up to the first one it
      cannot, and its result says what is wrong with that one. */
  lemma WalkEndsExactly(b: seq<byte>, p: nat, n: nat, frames: seq<Frame>, status: Status)
    requires p + n <= |b|
    ensures Walk(b, p, n) == (frames, status) <==>
            exists strides :: WalksTo(b, p, n, strides, status) && Frames(strides) == frames
  {
    hide Walk, ReadsAlong, EndsAt;
    if Walk(b, p, n) == (frames, status) {
      var strides := WalkSplits(b, p, n);
    }
    if strides :| WalksTo(b, p, n, strides, status) && Frames(strides) == frames {
      var rest := n - Length(strides);
      ReadsAlongAdvances(b, p, strides);
      WalksBeyond(b, p, strides, rest);
      EndsOnce(b, p + Length(strides), rest, status);
      assert Length(strides) + rest == n && Frames(strides) + [] == frames;
    }
  }

  /** Wherever the octets w stand on a word boundary, the walk takes stride s over them. */
  ghost predicate TakesStride(b: seq<byte>, w: seq<byte>, s: Stride) {
    |w| == s.size && |w| % 4 == 0 && forall q: nat | q % 4 == 0 && At(b, q, w) :: Advances(b, q, s)
  }

  lemma {:induction false} PiecesAdvance(b: seq<byte>, p: nat, pieces: seq<seq<byte>>, strides: seq<Stride>)
    requires |pieces| == |strides| && forall i :: 0 <= i < |pieces| ==> TakesStride(b, pieces[i], strides[i])
    requires p % 4 == 0 && At(b, p, Flatten(pieces))
    ensures AdvancesAlong(b, p, strides) && Length(strides) == |Flatten(pieces)|
    decreases |pieces|
  {
    if pieces != [] {
      FlattenSplit(b, p, pieces);
      assert TakesStride(b, pieces[0], strides[0]);
      SumAligned(p, |pieces[0]|);
      PiecesAdvance(b, p + |pieces[0]|, pieces[1..], strides[1..]);
    }
  }

  lemma ReadsAndMovesOn(b: seq<byte>, p: nat, s: Stride)
    requires ReadsAs(b, p, s)
    ensures Advances(b, p, s)
  {
    forall rest: nat | p + s.size + rest <= |b| ensures MovesOn(b, p, s, rest) {}
  }

  lemma PacketTakesStride(b: seq<byte>, pkt: Packet)
    requires Writable(pkt) && Readable(pkt)
    ensures TakesStride(b, PacketBytes(pkt), StrideOf(pkt))
  {
    forall q: nat | q % 4 == 0 && At(b, q, PacketBytes(pkt)) ensures Advances(b, q, StrideOf(pkt)) {
      ReadsPacket(b, q, pkt);
      ReadsAndMovesOn(b, q, StrideOf(pkt));
    }
  }

  function FramesOf(ps: seq<Packet>): seq<Frame>
    requires AllWritable(ps)
  {
    seq(|ps|, i requires 0 <= i < |ps| => FrameOf(ps[i]))
  }

  lemma {:induction false} FramesAt(strides: seq<Stride>)
    ensures |Frames(strides)| == |strides| && forall i :: 0 <= i < |strides| ==> Frames(strides)[i] == strides[i].frame
  {
    if strides != [] {
      FramesAt(strides[1..]);
    }
  }

  /** No chunk of the frame holds an item of kind 0. */
  predicate FrameKinded(f: Frame) {
    f.SdesFrame? ==> ChunksKinded(f.chunks)
  }

  lemma PacketKinds(b: seq<byte>, h: Header, p: nat, end: nat)
    requires p <= end <= |b| && FT_SR <= h.pktType <= FT_APP && ReadPacket(b, h, p, end).Some?
    ensures FrameKinded(ReadPacket(b, h, p, end).value)
  {
    hide ReadChunks, ReadBlocks, ReadSsrcs, ChunksKinded;
    if h.pktType == FT_SDES {
      ReadChunksKinds(b, p, end);
    }
  }

  /** Whatever arrives, no frame delivered holds an item of kind 0. */
  lemma {:induction false} WalkKinds(b: seq<byte>, p: nat, n: nat)
    requires p + n <= |b|
    ensures forall i :: 0 <= i < |Walk(b, p, n).0| ==> FrameKinded(Walk(b, p, n).0[i])
    decreases n
  {
    hide ReadPacket, FrameKinded;
    if n >= RTCP_HEADER_SIZE && Walk(b, p, n).0 != [] {
      var h := ReadHeader(b, p);
      var size := LengthInBytes(h.length);
      PacketKinds(b, h, p + RTCP_HEADER_SIZE, p + size);
      WalkKinds(b, p + size, n - size);
    }
  }

  lemma FrameIsKinded(pkt: Packet)
    requires Writable(pkt)
    ensures FrameKinded(FrameOf(pkt)) <==> Readable(pkt)
  {
    hide Kinded;
    if pkt.Sdes? {
      assert FrameOf(pkt).chunks[0] == Chunk(pkt.ssrc, pkt.items);
    }
  }

  lemma FramesKinded(ps: seq<Packet>)
    requires AllWritable(ps)
    ensures (forall i :: 0 <= i < |ps| ==> FrameKinded(FramesOf(ps)[i])) <==>
            forall i :: 0 <= i < |ps| ==> Readable(ps[i])
  {
    hide FrameKinded, Readable, FrameOf, Writable;
    forall i | 0 <= i < |ps|
      ensures FrameKinded(FramesOf(ps)[i]) <==> Readable(ps[i])
    {
      FrameIsKinded(ps[i]);
    }
  }

  /** For every list of packets that can be written, whatever follows them in the receive buffer,
      the walk delivers the frames the reader makes of them, one by one, and ends with nothing
      remaining, if and only if no SDES item is of kind 0. */
  lemma CompoundRoundTrip(b: seq<byte>, ps: seq<Packet>)
    requires AllWritable(ps) && At(b, 0, CompoundBytes(ps))
    ensures Walk(b, 0, |CompoundBytes(ps)|) == (FramesOf(ps), Success) <==>
            forall i :: 0 <= i < |ps| ==> Readable(ps[i])
  {
    hide Walk, Readable, FrameKinded, FrameOf, PacketBytes, Writable, Flatten;
    if forall i :: 0 <= i < |ps| ==> Readable(ps[i]) {
      ReadableAreWalked(b, ps);
    } else {
      WalkKinds(b, 0, |CompoundBytes(ps)|);
      FramesKinded(ps);
    }
  }

  lemma ReadableAreWalked(b: seq<byte>, ps: seq<Packet>)
    requires AllWritable(ps) && (forall i :: 0 <= i < |ps| ==> Readable(ps[i])) && At(b, 0, CompoundBytes(ps))
    ensures Walk(b, 0, |CompoundBytes(ps)|) == (FramesOf(ps), Success)
  {
    hide Walk, Readable, PacketBytes, Flatten;
    var strides := seq(|ps|, i requires 0 <= i < |ps| => StrideOf(ps[i]));
    forall i | 0 <= i < |ps|
      ensures TakesStride(b, Encoded(ps)[i], strides[i])
    {
      PacketTakesStride(b, ps[i]);
    }
    PiecesAdvance(b, 0, Encoded(ps), strides);
    WalksAlong(b, 0, strides);
    FramesAt(strides);
    assert Frames(strides) == FramesOf(ps);
  }

  function ExactFrames(ps: seq<Packet>): seq<Frame>
    requires AllWritable(ps)
  {
    seq(|ps|, i requires 0 <= i < |ps| => ExactFrame(ps[i]))
  }

  lemma ExactlyKinded(pkt: Packet)
    requires Writable(pkt)
    ensures FrameKinded(ExactFrame(pkt)) <==> Readable(pkt)
    ensures Survives(pkt) ==> Readable(pkt)
  {
    hide Kinded, AllFaithful;
    if pkt.Sdes? {
      assert ExactFrame(pkt).chunks[0] == Chunk(pkt.ssrc, pkt.items);
    }
  }

  lemma AllFramesExact(ps: seq<Packet>)
    requires AllWritable(ps) && forall i :: 0 <= i < |ps| ==> Readable(ps[i])
    ensures FramesOf(ps) == ExactFrames(ps) <==> forall i :: 0 <= i < |ps| ==> Survives(ps[i])
  {
    hide Readable, Survives, FrameOf, ExactFrame, Writable;
    forall i | 0 <= i < |ps|
      ensures FramesOf(ps)[i] == ExactFrames(ps)[i] <==> Survives(ps[i])
    {
      FrameIsExact(ps[i]);
    }
  }

  /** Writing a compound packet and walking it are inverse, field by field: for every list of
      packets that can be written, whatever follows them in the receive buffer, the walk delivers
      these packets with all they were given to carry, if and only if no SDES item is of kind 0,
      every loss is below 2^24 with bit 1 clear, every subtype is below 32 and every BYE is about
      fewer than 32 sources. */
  lemma ExactRoundTrip(b: seq<byte>, ps: seq<Packet>)
    requires AllWritable(ps) && At(b, 0, CompoundBytes(ps))
    ensures Walk(b, 0, |CompoundBytes(ps)|) == (ExactFrames(ps), Success) <==>
            forall i :: 0 <= i < |ps| ==> Survives(ps[i])
  {
    hide Walk, Readable, Survives, FrameKinded, FrameOf, ExactFrame, PacketBytes, Writable, Flatten;
    forall i | 0 <= i < |ps|
      ensures FrameKinded(ExactFrames(ps)[i]) <==> Readable(ps[i])
      ensures Survives(ps[i]) ==> Readable(ps[i])
    {
      ExactlyKinded(ps[i]);
    }
    if forall i :: 0 <= i < |ps| ==> Readable(ps[i]) {
      CompoundRoundTrip(b, ps);
      AllFramesExact(ps);
    } else {
      WalkKinds(b, 0, |CompoundBytes(ps)|);
    }
  }

  /** A BYE for 32 sources can be written, and is read as one for none. */
  lemma ByeOfThirtyTwo(ssrcs: seq<u32>)
    requires |ssrcs| == 32
    ensures Writable(Bye(ssrcs)) && |PacketBytes(Bye(ssrcs))| == 132
    ensures Walk(PacketBytes(Bye(ssrcs)), 0, 132) == ([ByeFrame(Header(2, 0, 0, FT_BYE, 32), [])], Success)
    ensures Walk(PacketBytes(Bye(ssrcs)), 0, 132) != (ExactFrames([Bye(ssrcs)]), Success)
  {
    hide Walk, SsrcsBytes, HeaderBytes;
    var (b, ps) := (PacketBytes(Bye(ssrcs)), [Bye(ssrcs)]);
    assert Encoded(ps) == [b];
    FlattenOne(b);
    assert b[0..132] == b;
    CompoundRoundTrip(b, ps);
    assert FramesOf(ps) == [ByeFrame(Header(2, 0, 0, FT_BYE, 32), [])];
    assert |ExactFrames(ps)[0].ssrcs| == 32;
  }

  /** A report sent is walked back to the frames of its packets if and only if no SDES item has
      kind 0, and with all it was given to carry if and only if, besides, all losses, subtypes and
      the BYE fit. */
  lemma SentReportIsRead(ssrc: u32, info: Option<SenderInfo>, blocks: seq<ReportBlock>, count: byte, items: seq<Item>,
                         apps: seq<AppPacket>, byes: seq<u32>, stale: seq<byte>)
    requires var ps := Planned(ssrc, info, blocks, count, items, apps, byes); AllWritable(ps)
    ensures var ps := Planned(ssrc, info, blocks, count, items, apps, byes);
            var walk := Walk(CompoundBytes(ps) + stale, 0, |CompoundBytes(ps)|);
            && (walk == (FramesOf(ps), Success) <==> Kinded(items, 0, |items|))
            && (walk == (ExactFrames(ps), Success) <==>
                Kinded(items, 0, |items|) && LossesFit(blocks) && SubtypesFit(apps) && |byes| < 32)
  {
    hide Walk, CompoundBytes, FramesOf, ExactFrames, Kinded, Writable, LossesFit;
    var ps := Planned(ssrc, info, blocks, count, items, apps, byes);
    var b := CompoundBytes(ps) + stale;
    assert b[0..|CompoundBytes(ps)|] == CompoundBytes(ps);
    CompoundRoundTrip(b, ps);
    ExactRoundTrip(b, ps);
    PlannedSurvives(ssrc, info, blocks, count, items, apps, byes);
    assert ps[1] == Sdes(count, ssrc, items);
    assert forall i :: 0 <= i < |ps| && i != 1 ==> !ps[i].Sdes?;
  }

  function BlocksOf(f: Frame): seq<ReadBlock>
    requires f.SrFrame? || f.RrFrame?
  {
    match f
    case SrFrame(_, _, _, blocks) => blocks
    case RrFrame(_, _, blocks) => blocks
  }

  predicate ReadsAbout(read: seq<ReadBlock>, x: u32) {
    exists i :: 0 <= i < |read| && read[i].ssrc == x
  }

  /** What is read of a block about a source. */
  ghost predicate TellsTrue(r: ReadBlock, b: int, events: seq<TrueEvent>) {
    var (ts, news) := (Numbers(events), NewsOf(b, events));
    var lost := Max(0, |Missing(b, ts)| - Surplus(b, ts) - 1);
    && r.lastSeq == Wrap32(Low16(b) + MaxOf(b, ts) - b) && r.lost == And(lost, 0xfffffd)
    && (lost < 0x100_0000 && news.expected - news.packets < 0x100_0000 ==>
          r.fraction == LossRatio(news.expected, news.packets))
  }

  lemma BlockTellsTrue(r: ReportBlock, b: int, events: seq<TrueEvent>)
    requires var (ts, news) := (Numbers(events), NewsOf(b, events));
             && r.lost == Max(0, |Missing(b, ts)| - Surplus(b, ts) - 1)
             && r.cycles * RTP_SEQ_MOD + r.maxSeq == Wrap32(Low16(b) + MaxOf(b, ts) - b)
             && (news.expected - news.packets < 0x100_0000 ==> r.fraction == LossRatio(news.expected, news.packets))
    ensures TellsTrue(Received(r), b, events)
  {
    hide Missing, Surplus, NewsOf, Numbers, MaxOf, LossRatio, MaskLost, And;
    MaskIsAnd(r.lost);
    if r.lost < 0x100_0000 {
      assert r.lost / 0x100_0000 == 0;
    }
  }

  /** From the packets of a source to what the receiver of our report reads about it: exactly if one
      has come since the last report there is a block about it, with the highest true number, the
      packets missing as far as the mask leaves them, and the share that is missing of the new ones. */
  lemma ReportTellsTrue(run: seq<SessionEvent>, x: u32, seqs: seq<u16>, b: int, events: seq<TrueEvent>,
                        timing: u32 -> Timing, order: seq<u32>, ps: seq<Packet>, stale: seq<byte>)
    requires Went(run, x, seqs, b, events)
    requires Enumerates(order, SessionRun(EMPTY_SESSION, run).value.participants.Keys)
    requires AllWritable(ps) && ps != [] && ps[0].Report? && forall i :: 0 <= i < |ps| ==> Readable(ps[i])
    requires ps[0].blocks == BlocksAfter(run, timing, order)
    ensures var (frames, status) := Walk(CompoundBytes(ps) + stale, 0, |CompoundBytes(ps)|);
            && status == Success && |frames| == |ps| && (frames[0].SrFrame? || frames[0].RrFrame?)
            && (NewsOf(b, events).packets > 0 <==> ReadsAbout(BlocksOf(frames[0]), x))
            && forall i :: 0 <= i < |BlocksOf(frames[0])| && BlocksOf(frames[0])[i].ssrc == x ==>
                 TellsTrue(BlocksOf(frames[0])[i], b, events)
  {
    hide Walk, CompoundBytes, Readable, Writable, TellsTrue, BlocksAfter, ReceivedAll, NewsOf, SessionRun, Ordered,
      PastOf, Member, ReadsAbout;
    var w := CompoundBytes(ps) + stale;
    assert w[0..|CompoundBytes(ps)|] == CompoundBytes(ps);
    CompoundRoundTrip(w, ps);
    assert BlocksOf(FramesOf(ps)[0]) == ReceivedAll(ps[0].blocks);
    BlocksTellTrue(run, x, seqs, b, events, timing, order);
  }

  /** The blocks of the report after this run. */
  function BlocksAfter(run: seq<SessionEvent>, timing: u32 -> Timing, order: seq<u32>): seq<ReportBlock>
    requires SessionRun(EMPTY_SESSION, run).Some?
    requires Enumerates(order, SessionRun(EMPTY_SESSION, run).value.participants.Keys)
  {
    ReportsOn(SessionRun(EMPTY_SESSION, run).value.participants, timing, order, |order|)
  }

  lemma OneBlockTellsTrue(run: seq<SessionEvent>, x: u32, seqs: seq<u16>, b: int, events: seq<TrueEvent>,
                          timing: u32 -> Timing, order: seq<u32>, r: ReportBlock)
    requires Went(run, x, seqs, b, events)
    requires Enumerates(order, SessionRun(EMPTY_SESSION, run).value.participants.Keys)
    requires r in BlocksAfter(run, timing, order) && r.ssrc == x
    ensures TellsTrue(Received(r), b, events)
  {
    hide TellsTrue, ReportsOn, Received, Missing, Surplus, NewsOf, Numbers, MaxOf, LossRatio, SessionRun, Ordered,
      PastOf, Member, ReportsAbout;
    BlocksAreExact(run, x, seqs, b, events, timing, order);
    BlockTellsTrue(r, b, events);
  }

  lemma HasBlock(run: seq<SessionEvent>, x: u32, seqs: seq<u16>, b: int, events: seq<TrueEvent>,
                 timing: u32 -> Timing, order: seq<u32>)
    requires Went(run, x, seqs, b, events)
    requires Enumerates(order, SessionRun(EMPTY_SESSION, run).value.participants.Keys)
    ensures NewsOf(b, events).packets > 0 <==> ReportsAbout(BlocksAfter(run, timing, order), x)
  {
    hide ReportsAbout, ReportsOn, Missing, Surplus, NewsOf, Numbers, MaxOf, LossRatio, SessionRun, Ordered, PastOf,
      Member;
    BlocksAreExact(run, x, seqs, b, events, timing, order);
  }

  lemma BlocksTellTrue(run: seq<SessionEvent>, x: u32, seqs: seq<u16>, b: int, events: seq<TrueEvent>,
                       timing: u32 -> Timing, order: seq<u32>)
    requires Went(run, x, seqs, b, events)
    requires Enumerates(order, SessionRun(EMPTY_SESSION, run).value.participants.Keys)
    ensures var read := ReceivedAll(BlocksAfter(run, timing, order));
            && (NewsOf(b, events).packets > 0 <==> ReadsAbout(read, x))
            && forall i :: 0 <= i < |read| && read[i].ssrc == x ==> TellsTrue(read[i], b, events)
  {
    hide BlocksAfter, TellsTrue, Received, NewsOf, ReportsAbout, ReadsAbout, SessionRun, Ordered, PastOf, Member;
    var blocks := BlocksAfter(run, timing, order);
    var read := ReceivedAll(blocks);
    HasBlock(run, x, seqs, b, events, timing, order);
    SameSources(blocks, x);
    forall i | 0 <= i < |blocks|
      ensures read[i].ssrc == blocks[i].ssrc && (blocks[i].ssrc == x ==> TellsTrue(read[i], b, events))
    {
      ReceivedSource(blocks[i]);
      if blocks[i].ssrc == x {
        assert blocks[i] in blocks;
        OneBlockTellsTrue(run, x, seqs, b, events, timing, order, blocks[i]);
      }
    }
  }

  lemma SameSources(blocks: seq<ReportBlock>, x: u32)
    ensures ReadsAbout(ReceivedAll(blocks), x) <==> ReportsAbout(blocks, x)
  {
    hide Received;
    forall i | 0 <= i < |blocks|
      ensures ReceivedAll(blocks)[i].ssrc == blocks[i].ssrc
    {
      ReceivedSource(blocks[i]);
    }
  }

  lemma ReceivedSource(r: ReportBlock)
    ensures Received(r).ssrc == r.ssrc
  {}

  predicate SubtypesFit(apps: seq<AppPacket>) {
    forall i :: 0 <= i < |apps| ==> apps[i].subtype < 32
  }

  lemma PlannedSurvives(ssrc: u32, info: Option<SenderInfo>, blocks: seq<ReportBlock>, count: byte, items: seq<Item>,
                        apps: seq<AppPacket>, byes: seq<u32>)
    ensures var ps := Planned(ssrc, info, blocks, count, items, apps, byes);
            (forall i :: 0 <= i < |ps| ==> Survives(ps[i])) <==>
            Kinded(items, 0, |items|) && LossesFit(blocks) && SubtypesFit(apps) && |byes| < 32
  {
    hide Kinded, LossesFit;
    var ps := Planned(ssrc, info, blocks, count, items, apps, byes);
    assert ps[0] == Packet.Report(ssrc, info, blocks) && ps[1] == Sdes(count, ssrc, items);
    assert forall i :: 0 <= i < |apps| ==> ps[2 + i] == App(ssrc, apps[i]);
    assert forall i :: 2 <= i < 2 + |apps| ==> ps[i] == App(ssrc, apps[i - 2]);
    assert byes != [] ==> ps[|ps| - 1] == Bye(byes);
  }

  lemma SumAligned(x: int, y: int)
    requires x % 4 == 0 && y % 4 == 0
    ensures (x + y) % 4 == 0
  {}

  // ---------- the loops ----------

  lemma Extend<T>(done: seq<T>, x: T, rest: seq<T>)
    ensures done + ([x] + rest) == done + [x] + rest
    ensures [] + rest == rest && done + [] == done
  {}

  /** A count beyond the end of the packet is ignored, block by block. */
  method ReadReports(b: seq<byte>, start: nat, end: nat, count: nat) returns (reports: seq<ReadBlock>)
    requires end <= |b|
    ensures reports == ReadBlocks(b, start, end, count)
  {
    reports := [];
    var readPtr: nat := start;
    assert [] + ReadBlocks(b, start, end, count) == ReadBlocks(b, start, end, count);
    for i := 0 to count
      invariant ReadBlocks(b, start, end, count) == reports + ReadBlocks(b, readPtr, end, count - i)
    {
      if end >= readPtr + REPORT_BLOCK_SIZE {
        Extend(reports, ReadBlockAt(b, readPtr), ReadBlocks(b, readPtr + REPORT_BLOCK_SIZE, end, count - i - 1));
        reports := reports + [ReadBlockAt(b, readPtr)];
        readPtr := readPtr + REPORT_BLOCK_SIZE;
      }
    }
  }

  method ReadSdesItems(b: seq<byte>, start: nat, end: nat) returns (items: seq<Item>, readPtr: nat)
    requires start <= end <= |b|
    ensures (items, readPtr) == ReadItems(b, start, end)
  {
    items, readPtr := [], start;
    assert [] + ReadItems(b, start, end).0 == ReadItems(b, start, end).0;
    while readPtr + 2 <= end && b[readPtr] != 0
      invariant start <= readPtr <= end
      invariant var (rest, q) := ReadItems(b, readPtr, end); ReadItems(b, start, end) == (items + rest, q)
      decreases end - readPtr
    {
      var (kind, length) := (b[readPtr], b[readPtr + 1]);
      readPtr := readPtr + 2;
      var data := [];
      if readPtr + length <= end {
        data := b[readPtr..readPtr + length];
        readPtr := readPtr + length;
      }
      Extend(items, Item(kind, length, data), ReadItems(b, readPtr, end).0);
      items := items + [Item(kind, length, data)];
    }
    assert items + [] == items;
  }

  method HandleSdesPacket(b: seq<byte>, start: nat, end: nat) returns (r: Option<seq<Chunk>>)
    requires start <= end <= |b|
    ensures r == ReadChunks(b, start, end)
  {
    var chunks: seq<Chunk> := [];
    var readPtr := start;
    assert ReadChunks(b, start, end).Some? ==> [] + ReadChunks(b, start, end).value == ReadChunks(b, start, end).value;
    while readPtr + SSRC_CSRC_SIZE <= end
      invariant start <= readPtr <= end + 4
      invariant ReadChunks(b, start, end) ==
                match ReadChunks(b, readPtr, end) case None => None case Some(rest) => Some(chunks + rest)
      decreases end + 4 - readPtr
    {
      var ssrc := GetBe32(b, readPtr);
      var items;
      ghost var p := readPtr;
      items, readPtr := ReadSdesItems(b, readPtr + SSRC_CSRC_SIZE, end);
      if readPtr >= |b| {
        return None;
      }
      if b[readPtr] == 0 {
        readPtr := readPtr + (4 - readPtr % 4);
      }
      ChunksStep(b, p, end, chunks);
      chunks := chunks + [Chunk(ssrc, items)];
    }
    assert chunks + [] == chunks;
    return Some(chunks);
  }

  lemma ChunksStep(b: seq<byte>, p: nat, end: nat, chunks: seq<Chunk>)
    requires p + SSRC_CSRC_SIZE <= end <= |b| && ReadItems(b, p + SSRC_CSRC_SIZE, end).1 < |b|
    ensures var (items, q) := ReadItems(b, p + SSRC_CSRC_SIZE, end);
            match ReadChunks(b, AfterItems(b, q), end)
            case None => ReadChunks(b, p, end) == None
            case Some(rest) =>
              ReadChunks(b, p, end).Some? &&
              chunks + ReadChunks(b, p, end).value == chunks + [Chunk(GetBe32(b, p), items)] + rest
  {}

  method HandleByePacket(b: seq<byte>, start: nat, count: nat) returns (r: Option<seq<u32>>)
    ensures r == if start + SSRC_CSRC_SIZE * count > |b| then None else Some(ReadSsrcs(b, start, count))
  {
    if start > |b| {
      return None;
    }
    var ssrcs: seq<u32> := [];
    assert start + SSRC_CSRC_SIZE * count <= |b| ==> [] + ReadSsrcs(b, start, count) == ReadSsrcs(b, start, count);
    for i := 0 to count
      invariant start + SSRC_CSRC_SIZE * i <= |b|
      invariant start + SSRC_CSRC_SIZE * count <= |b| ==>
                  ReadSsrcs(b, start, count) == ssrcs + ReadSsrcs(b, start + SSRC_CSRC_SIZE * i, count - i)
    {
      if start + SSRC_CSRC_SIZE * (i + 1) > |b| {
        return None;
      }
      var ssrc := GetBe32(b, start + SSRC_CSRC_SIZE * i);
      if start + SSRC_CSRC_SIZE * count <= |b| {
        Extend(ssrcs, ssrc, ReadSsrcs(b, start + SSRC_CSRC_SIZE * (i + 1), count - i - 1));
      }
      ssrcs := ssrcs + [ssrc];
    }
    assert ssrcs + [] == ssrcs;
    return Some(ssrcs);
  }

  method HandlePacket(b: seq<byte>, h: Header, p: nat, end: nat) returns (r: Option<Frame>)
    requires p <= end <= |b| && FT_SR <= h.pktType <= FT_APP
    ensures r == ReadPacket(b, h, p, end)
  {
    if h.pktType == FT_SR {
      if p + 24 > |b| {
        return None;
      }
      var blocks := ReadReports(b, p + 24, end, h.count);
      return Some(SrFrame(h, GetBe32(b, p), ReadSenderInfo(b, p + 4), blocks));
    } else if h.pktType == FT_RR {
      if p + 4 > |b| {
        return None;
      }
      var blocks := ReadReports(b, p + 4, end, h.count);
      return Some(RrFrame(h, GetBe32(b, p), blocks));
    } else if h.pktType == FT_SDES {
      var chunks := HandleSdesPacket(b, p, end);
      return match chunks case None => None case Some(cs) => Some(SdesFrame(h, cs));
    } else if h.pktType == FT_BYE {
      var ssrcs := HandleByePacket(b, p, h.count);
      return match ssrcs case None => None case Some(ss) => Some(ByeFrame(h, ss));
    } else {
      return if p + 8 > end then None else Some(AppFrame(h, GetBe32(b, p), b[p + 4..p + 8], b[p + 8..end]));
    }
  }

  /** With frames delivered so far, the walk goes on from p. */
  ghost predicate GoesOn(b: seq<byte>, size: nat, frames: seq<Frame>, p: nat, remaining: nat)
    requires size <= |b| && p + remaining == size
  {
    Walk(b, 0, size) == (frames + Walk(b, p, remaining).0, Walk(b, p, remaining).1)
  }

  lemma GoesOnPast(b: seq<byte>, size: nat, frames: seq<Frame>, p: nat, remaining: nat, s: Stride)
    requires size <= |b| && p + remaining == size && GoesOn(b, size, frames, p, remaining)
    requires ReadsAs(b, p, s) && s.size <= remaining
    ensures GoesOn(b, size, frames + [s.frame], p + s.size, remaining - s.size)
  {
    hide ReadsAs, Walk;
    ReadsAndMovesOn(b, p, s);
    assert MovesOn(b, p, s, remaining - s.size);
    Extend(frames, s.frame, Walk(b, p + s.size, remaining - s.size).0);
  }

  /** One turn of the walk. */
  method NextFrame(b: seq<byte>, p: nat, remaining: nat) returns (ret: Status, s: Option<Stride>)
    requires 0 < remaining && p + remaining <= |b|
    ensures s.Some? <==> ret == Success
    ensures s.Some? ==> ReadsAs(b, p, s.value) && s.value.size <= remaining
    ensures s.None? ==> Walk(b, p, remaining) == ([], ret)
  {
    if remaining < RTCP_HEADER_SIZE {
      return InvalidValue, None;
    }
    var h := ReadHeader(b, p);
    var packetSize := LengthInBytes(h.length);
    if h.version != 2 {
      return InvalidValue, None;
    }
    if remaining < packetSize {
      return NotSupported, None;
    }
    if h.padding != 0 || h.pktType < FT_SR || h.pktType > FT_APP {
      return InvalidValue, None;
    }
    var frame := HandlePacket(b, h, p + RTCP_HEADER_SIZE, p + packetSize);
    if frame == None {
      return Undefined, None;
    }
    return Success, Some(Stride(packetSize, frame.value));
  }

  /** b is the receive buffer, of which the first size octets arrived. */
  method HandleIncomingPacket(b: seq<byte>, size: nat) returns (frames: seq<Frame>, ret: Status)
    requires size <= |b|
    ensures (frames, ret) == if size == 0 then ([], InvalidValue) else Walk(b, 0, size)
  {
    hide Walk;
    frames, ret := [], Success;
    if size == 0 {
      return [], InvalidValue;
    }
    var readPtr: nat, remaining: nat := 0, size;
    assert [] + Walk(b, 0, size).0 == Walk(b, 0, size).0;
    while remaining > 0
      invariant readPtr + remaining == size && GoesOn(b, size, frames, readPtr, remaining) && ret == Success
    {
      assert frames + [] == frames;
      var next;
      ret, next := NextFrame(b, readPtr, remaining);
      if next == None {
        return;
      }
      GoesOnPast(b, size, frames, readPtr, remaining, next.value);
      frames := frames + [next.value.frame];
      readPtr, remaining := readPtr + next.value.size, remaining - next.value.size;
    }
    NothingToWalk(b, readPtr);
    assert frames + [] == frames;
  }
}
