/**
 * RTCP packets on the wire: the writers of src/rtcp_packets.cc and generate_report in
 * src/rtcp.cc, which assembles a compound packet (RFC 3550 sections 6.1 and 6.4 to 6.7).
 */
module RtcpPackets {
  import opened Bytes
  import opened Wrappers
  import opened RtcpSession

  const RTCP_HEADER_SIZE := 4
  const SSRC_CSRC_SIZE := 4
  const SENDER_INFO_SIZE := 20
  const REPORT_BLOCK_SIZE := 24
  const APP_NAME_SIZE := 4
  const SRTCP_INDEX_LENGTH := 4
  const AUTH_TAG_LENGTH := 10
  const UINT16_MAX := 0xffff

  const FT_SR: byte := 200
  const FT_RR: byte := 201
  const FT_SDES: byte := 202
  const FT_BYE: byte := 203
  const FT_APP: byte := 204

  const SDES_CNAME: byte := 1

  datatype SenderInfo = SenderInfo(ntpMsw: u32, ntpLsw: u32, rtpTs: u32, pktCnt: u32, byteCnt: u32)

  /** An SDES item; the parser leaves data empty if the packet ends before the announced length. */
  datatype Item = Item(kind: byte, length: byte, data: seq<byte>)

  datatype AppPacket = AppPacket(subtype: byte, name: seq<byte>, payload: seq<byte>)

  // ---------- the octets of each part ----------

  function Zeros(n: nat): (z: seq<byte>)
    ensures |z| == n && forall i :: 0 <= i < n ==> z[i] == 0
  {
    seq(n, _ => 0)
  }

  /** Version 2 and no padding above a field that should have five bits. */
  function FirstOctet(second: byte): byte {
    if second < 0x80 then 0x80 + second else second
  }

  /** Nothing cuts the field down to five bits. */
  lemma FirstOctetOrs(second: byte)
    ensures FirstOctet(second) == Or(0x80, second)
  {
    PowersOfTwo();
    Pow2Seven();
    OrShifted(1, second, 7);
  }

  lemma Pow2Seven()
    ensures Pow2(7) == 0x80
  {
    assert Pow2(4) == 16;
  }

  /** The size in 32-bit words less one, in 16 bits. */
  function LengthField(size: nat): u16
    requires size <= UINT16_MAX
  {
    if size < 4 then UINT16_MAX else size / 4 - 1
  }

  function HeaderBytes(size: nat, second: byte, frameType: byte): (b: seq<byte>)
    requires size <= UINT16_MAX
    ensures |b| == RTCP_HEADER_SIZE
  {
    [FirstOctet(second), frameType] + Be16(LengthField(size))
  }

  function SenderInfoBytes(i: SenderInfo): (b: seq<byte>)
    ensures |b| == SENDER_INFO_SIZE
  {
    Be32(i.ntpMsw) + Be32(i.ntpLsw) + Be32(i.rtpTs) + Be32(i.pktCnt) + Be32(i.byteCnt)
  }

  /** The word that packs the fraction lost above the packets lost. */
  function LossWord(fraction: byte, lost: u32): u32 {
    LossWordBits(fraction, lost);
    Or(fraction * 0x100_0000, lost)
  }

  lemma {:induction false} OrBound(x: nat, y: nat, k: nat)
    requires x < Pow2(k) && y < Pow2(k)
    ensures Or(x, y) < Pow2(k)
  {
    if x != 0 && y != 0 {
      OrBound(x / 2, y / 2, k - 1);
    }
  }

  lemma LossWordBits(fraction: byte, lost: u32)
    ensures var w := Or(fraction * 0x100_0000, lost);
            w == Or(fraction, lost / 0x100_0000) * 0x100_0000 + lost % 0x100_0000 &&
            Or(fraction, lost / 0x100_0000) < 0x100
  {
    PowersOfTwo();
    OrShifted(fraction, lost, 24);
    OrBound(fraction, lost / 0x100_0000, 8);
  }

  lemma PowersOfTwo()
    ensures Pow2(8) == 0x100 && Pow2(24) == 0x100_0000
  {
    assert Pow2(4) == 16;
    assert Pow2(8) == 0x100;
    assert Pow2(12) == 0x1000;
    assert Pow2(16) == 0x1_0000;
    assert Pow2(20) == 0x10_0000;
  }

  /** The extended highest sequence number. */
  function LastSeq(r: ReportBlock): u32 {
    r.cycles * 0x1_0000 + r.maxSeq
  }

  function BlockBytes(r: ReportBlock): (b: seq<byte>)
    ensures |b| == REPORT_BLOCK_SIZE
  {
    Be32(r.ssrc) + Be32(LossWord(r.fraction, r.lost)) + Be32(LastSeq(r)) +
    Be32(r.jitter) + Be32(r.lsr) + Be32(r.dlsr)
  }

  function BlocksBytes(blocks: seq<ReportBlock>): (b: seq<byte>)
    ensures |b| == REPORT_BLOCK_SIZE * |blocks|
  {
    if blocks == [] then [] else BlocksBytes(blocks[..|blocks| - 1]) + BlockBytes(blocks[|blocks| - 1])
  }

  function ItemBytes(i: Item): seq<byte> {
    [i.kind, i.length] + i.data
  }

  function ItemsBytes(items: seq<Item>): seq<byte> {
    if items == [] then []
    else
      ItemsBytes(items[..|items| - 1]) + ItemBytes(items[|items| - 1])
  }

  function SsrcsBytes(ssrcs: seq<u32>): (b: seq<byte>)
    ensures |b| == SSRC_CSRC_SIZE * |ssrcs|
  {
    if ssrcs == [] then [] else SsrcsBytes(ssrcs[..|ssrcs| - 1]) + Be32(ssrcs[|ssrcs| - 1])
  }

  // ---------- packet sizes ----------

  function RrPacketSize(srtp: bool, reports: nat): nat {
    RTCP_HEADER_SIZE + SSRC_CSRC_SIZE + REPORT_BLOCK_SIZE * reports +
    (if srtp then SRTCP_INDEX_LENGTH + AUTH_TAG_LENGTH else 0)
  }

  function SrPacketSize(srtp: bool, reports: nat): nat {
    RrPacketSize(srtp, reports) + SENDER_INFO_SIZE
  }

  function ReportSize(sr: bool, srtp: bool, reports: nat): nat {
    if sr then SrPacketSize(srtp, reports) else RrPacketSize(srtp, reports)
  }

  function AppPacketSize(payloadLen: nat): nat {
    RTCP_HEADER_SIZE + SSRC_CSRC_SIZE + APP_NAME_SIZE + payloadLen
  }

  function ByePacketSize(ssrcs: seq<u32>): nat {
    RTCP_HEADER_SIZE + |ssrcs| * SSRC_CSRC_SIZE
  }

  /** Item lengths are what the items say they are. */
  predicate GoodItems(items: seq<Item>) {
    forall i :: 0 <= i < |items| ==> |items[i].data| == items[i].length
  }

  /** The octets that end a chunk: at least one zero, and up to a multiple of four. */
  function ChunkPadding(n: nat): (k: nat)
    ensures 1 <= k <= 4 && (n + k) % 4 == 0
  {
    4 - n % 4
  }

  function ChunkBytes(ssrc: u32, items: seq<Item>): seq<byte> {
    Be32(ssrc) + ItemsBytes(items) + Zeros(ChunkPadding(|ItemsBytes(items)|))
  }

  function SdesPacketSize(items: seq<Item>): nat {
    var n := RTCP_HEADER_SIZE + SSRC_CSRC_SIZE + |ItemsBytes(items)|;
    n + ChunkPadding(n)
  }

  method GetSdesPacketSize(items: seq<Item>) returns (size: nat)
    requires GoodItems(items)
    ensures size == SdesPacketSize(items) && size % 4 == 0
  {
    var frameSize := RTCP_HEADER_SIZE + SSRC_CSRC_SIZE;
    frameSize := frameSize + |items| * 2;
    for i := 0 to |items|
      invariant frameSize == RTCP_HEADER_SIZE + SSRC_CSRC_SIZE + |ItemsBytes(items[..i])| + 2 * (|items| - i)
    {
      assert items[..i + 1][..i] == items[..i];
      frameSize := frameSize + items[i].length;
    }
    assert items[..|items|] == items;
    size := frameSize + (4 - frameSize % 4);
  }

  // ---------- packets ----------

  datatype Packet =
    | Report(ssrc: u32, info: Option<SenderInfo>, blocks: seq<ReportBlock>)  // SR if there is sender information
    | Sdes(count: byte, ssrc: u32, items: seq<Item>)
    | App(ssrc: u32, app: AppPacket)
    | Bye(ssrcs: seq<u32>)

  function SizeOf(p: Packet): nat {
    match p
    case Report(_, info, blocks) => ReportSize(info.Some?, false, |blocks|)
    case Sdes(_, _, items) => SdesPacketSize(items)
    case App(_, app) => AppPacketSize(|app.payload|)
    case Bye(ssrcs) => ByePacketSize(ssrcs)
  }

  /** What construct_rtcp_header asks of a packet size. */
  predicate HeaderAccepts(size: nat) {
    size <= UINT16_MAX && size % 4 == 0
  }

  /** The packet can be written: 5-bit counts, items and names as long as they claim to be, and
      a size the header accepts. */
  predicate Writable(p: Packet) {
    && HeaderAccepts(SizeOf(p))
    && match p
       case Report(_, _, blocks) => |blocks| < 32
       case Sdes(count, _, items) => count < 32 && GoodItems(items)
       case App(_, app) => |app.name| == APP_NAME_SIZE
       case Bye(_) => true
  }

  /** The part of a report before its blocks. */
  function HeadBytes(info: Option<SenderInfo>, reports: nat, ssrc: u32): (b: seq<byte>)
    requires reports < 32
    ensures |b| + REPORT_BLOCK_SIZE * reports == ReportSize(info.Some?, false, reports)
  {
    var size := ReportSize(info.Some?, false, reports);
    match info
    case Some(i) => HeaderBytes(size, reports, FT_SR) + Be32(ssrc) + SenderInfoBytes(i)
    case None => HeaderBytes(size, reports, FT_RR) + Be32(ssrc)
  }

  function PacketBytes(p: Packet): (b: seq<byte>)
    requires Writable(p)
    ensures |b| == SizeOf(p)
  {
    match p
    case Report(ssrc, info, blocks) =>
      HeadBytes(info, |blocks|, ssrc) + BlocksBytes(blocks)
    case Sdes(count, ssrc, items) =>
      HeaderBytes(SizeOf(p), count, FT_SDES) + ChunkBytes(ssrc, items)
    case App(ssrc, app) =>
      HeaderBytes(SizeOf(p), app.subtype % 32, FT_APP) + Be32(ssrc) + (app.name + app.payload)
    case Bye(ssrcs) =>
      HeaderBytes(SizeOf(p), |ssrcs| % 32, FT_BYE) + SsrcsBytes(ssrcs)
  }

  predicate AllWritable(ps: seq<Packet>) {
    forall i :: 0 <= i < |ps| ==> Writable(ps[i])
  }

  function Encoded(ps: seq<Packet>): seq<seq<byte>>
    requires AllWritable(ps)
  {
    seq(|ps|, i requires 0 <= i < |ps| => PacketBytes(ps[i]))
  }

  function CompoundBytes(ps: seq<Packet>): seq<byte>
    requires AllWritable(ps)
  {
    Flatten(Encoded(ps))
  }

  // ---------- writers ----------

  /** The frame starts with what has been written so far and is still zero after it, as
      generate_report leaves it after clearing it. */
  ghost predicate Holds(frame: array<byte>, out: seq<byte>)
    reads frame
  {
    && |out| <= frame.Length && frame[..|out|] == out
    && forall i :: |out| <= i < frame.Length ==> frame[i] == 0
  }

  method Copy(frame: array<byte>, ptr: nat, data: seq<byte>, ghost out: seq<byte>) returns (next: nat)
    requires Holds(frame, out) && ptr == |out| && ptr + |data| <= frame.Length
    modifies frame
    ensures Holds(frame, out + data) && next == ptr + |data|
  {
    forall i | 0 <= i < |data| {
      frame[ptr + i] := data[i];
    }
    next := ptr + |data|;
  }

  method SetNextField32(frame: array<byte>, ptr: nat, x: u32, ghost out: seq<byte>) returns (next: nat)
    requires Holds(frame, out) && ptr == |out| && ptr + 4 <= frame.Length
    modifies frame
    ensures Holds(frame, out + Be32(x)) && next == ptr + 4
  {
    next := Copy(frame, ptr, Be32(x), out);
  }

  method ConstructRtcpHeader(frame: array<byte>, ptr: nat, packetSize: nat, secondField: byte, frameType: byte,
                             ghost out: seq<byte>)
    returns (ok: bool, next: nat)
    requires Holds(frame, out) && ptr == |out| && ptr + RTCP_HEADER_SIZE <= frame.Length
    modifies frame
    ensures ok <==> HeaderAccepts(packetSize)
    ensures ok ==> Holds(frame, out + HeaderBytes(packetSize, secondField, frameType)) && next == ptr + RTCP_HEADER_SIZE
    ensures !ok ==> Holds(frame, out) && next == ptr
  {
    if packetSize > UINT16_MAX || packetSize % 4 != 0 {
      return false, ptr;
    }
    FirstOctetOrs(secondField);
    var first := Or(0x80, secondField);
    frame[ptr] := first;
    frame[ptr + 1] := frameType;
    var length := Be16((packetSize / 4 - 1) % 0x1_0000);
    frame[ptr + 2] := length[0];
    frame[ptr + 3] := length[1];
    assert frame[..ptr + 4] == out + HeaderBytes(packetSize, secondField, frameType);
    return true, ptr + RTCP_HEADER_SIZE;
  }

  method ConstructSenderInfo(frame: array<byte>, ptr: nat, i: SenderInfo, ghost out: seq<byte>) returns (next: nat)
    requires Holds(frame, out) && ptr == |out| && ptr + SENDER_INFO_SIZE <= frame.Length
    modifies frame
    ensures Holds(frame, out + SenderInfoBytes(i)) && next == ptr + SENDER_INFO_SIZE
  {
    next := SetNextField32(frame, ptr, i.ntpMsw, out);
    next := SetNextField32(frame, next, i.ntpLsw, out + Be32(i.ntpMsw));
    next := SetNextField32(frame, next, i.rtpTs, out + Be32(i.ntpMsw) + Be32(i.ntpLsw));
    next := SetNextField32(frame, next, i.pktCnt, out + Be32(i.ntpMsw) + Be32(i.ntpLsw) + Be32(i.rtpTs));
    next := SetNextField32(frame, next, i.byteCnt,
                           out + Be32(i.ntpMsw) + Be32(i.ntpLsw) + Be32(i.rtpTs) + Be32(i.pktCnt));
    assert out + SenderInfoBytes(i) ==
           out + Be32(i.ntpMsw) + Be32(i.ntpLsw) + Be32(i.rtpTs) + Be32(i.pktCnt) + Be32(i.byteCnt);
  }

  method ConstructReportBlock(frame: array<byte>, ptr: nat, r: ReportBlock, ghost out: seq<byte>) returns (next: nat)
    requires Holds(frame, out) && ptr == |out| && ptr + REPORT_BLOCK_SIZE <= frame.Length
    modifies frame
    ensures Holds(frame, out + BlockBytes(r)) && next == ptr + REPORT_BLOCK_SIZE
  {
    next := SetNextField32(frame, ptr, r.ssrc, out);
    ghost var o := out + Be32(r.ssrc);
    next := SetNextField32(frame, next, LossWord(r.fraction, r.lost), o);
    o := o + Be32(LossWord(r.fraction, r.lost));
    next := SetNextField32(frame, next, LastSeq(r), o);
    o := o + Be32(LastSeq(r));
    next := SetNextField32(frame, next, r.jitter, o);
    next := SetNextField32(frame, next, r.lsr, o + Be32(r.jitter));
    next := SetNextField32(frame, next, r.dlsr, o + Be32(r.jitter) + Be32(r.lsr));
    assert out + BlockBytes(r) == o + Be32(r.jitter) + Be32(r.lsr) + Be32(r.dlsr);
  }

  method ConstructAppPacket(frame: array<byte>, ptr: nat, app: AppPacket, ghost out: seq<byte>) returns (next: nat)
    requires Holds(frame, out) && ptr == |out| && ptr + |app.name| + |app.payload| <= frame.Length
    modifies frame
    ensures Holds(frame, out + (app.name + app.payload)) && next == ptr + |app.name| + |app.payload|
  {
    next := Copy(frame, ptr, app.name, out);
    next := Copy(frame, next, app.payload, out + app.name);
    assert out + app.name + app.payload == out + (app.name + app.payload);
  }

  method ConstructSdesItem(frame: array<byte>, ptr: nat, item: Item, ghost out: seq<byte>) returns (next: nat)
    requires Holds(frame, out) && ptr == |out| && ptr + |ItemBytes(item)| <= frame.Length
    modifies frame
    ensures Holds(frame, out + ItemBytes(item)) && next == ptr + |ItemBytes(item)|
  {
    next := Copy(frame, ptr, [item.kind, item.length], out);
    next := Copy(frame, next, item.data, out + [item.kind, item.length]);
    assert out + ItemBytes(item) == out + [item.kind, item.length] + item.data;
  }

  lemma HoldsPadding(frame: array<byte>, out: seq<byte>, k: nat)
    requires Holds(frame, out) && |out| + k <= frame.Length
    ensures Holds(frame, out + Zeros(k))
  {}

  predicate HasCname(items: seq<Item>) {
    exists i :: 0 <= i < |items| && items[i].kind == SDES_CNAME
  }

  method ConstructSdesItems(frame: array<byte>, ptr: nat, items: seq<Item>, ghost out: seq<byte>)
    returns (haveCname: bool, next: nat)
    requires Holds(frame, out) && ptr == |out| && ptr + |ItemsBytes(items)| <= frame.Length
    modifies frame
    ensures haveCname <==> HasCname(items)
    ensures Holds(frame, out + ItemsBytes(items)) && next == ptr + |ItemsBytes(items)|
  {
    hide Be32;
    haveCname, next := false, ptr;
    for i := 0 to |items|
      invariant haveCname <==> exists j :: 0 <= j < i && items[j].kind == SDES_CNAME
      invariant next == ptr + |ItemsBytes(items[..i])|
      invariant Holds(frame, out + ItemsBytes(items[..i]))
    {
      assert items[..i + 1][..i] == items[..i];
      ItemsPrefix(items, i + 1);
      if items[i].kind == SDES_CNAME {
        haveCname := true;
      }
      next := ConstructSdesItem(frame, next, items[i], out + ItemsBytes(items[..i]));
      assert out + ItemsBytes(items[..i + 1]) == out + ItemsBytes(items[..i]) + ItemBytes(items[i]);
    }
    assert items[..|items|] == items;
  }

  /** The padding is not written: the pointer moves over octets that are still zero. */
  method ConstructSdesChunk(frame: array<byte>, ptr: nat, ssrc: u32, items: seq<Item>, ghost out: seq<byte>)
    returns (haveCname: bool, next: nat)
    requires Holds(frame, out) && ptr == |out| && ptr % 4 == 0
    requires ptr + |ChunkBytes(ssrc, items)| <= frame.Length
    modifies frame
    ensures haveCname <==> HasCname(items)
    ensures Holds(frame, out + ChunkBytes(ssrc, items)) && next == ptr + |ChunkBytes(ssrc, items)|
  {
    hide Holds, ItemsBytes, Be32, Zeros;
    next := SetNextField32(frame, ptr, ssrc, out);
    haveCname, next := ConstructSdesItems(frame, next, items, out + Be32(ssrc));
    ghost var pad := ChunkPadding(|ItemsBytes(items)|);
    HoldsPadding(frame, out + Be32(ssrc) + ItemsBytes(items), pad);
    assert out + Be32(ssrc) + ItemsBytes(items) + Zeros(pad) == out + ChunkBytes(ssrc, items);
    next := next + (4 - next % 4);
  }

  lemma {:induction false} ItemsPrefix(items: seq<Item>, n: nat)
    requires n <= |items|
    ensures |ItemsBytes(items[..n])| <= |ItemsBytes(items)|
  {
    if n < |items| {
      var last := |items| - 1;
      assert items[..last][..n] == items[..n];
      ItemsPrefix(items[..last], n);
    } else {
      assert items[..n] == items;
    }
  }

  method ConstructByePacket(frame: array<byte>, ptr: nat, ssrcs: seq<u32>, ghost out: seq<byte>) returns (next: nat)
    requires Holds(frame, out) && ptr == |out| && ptr + SSRC_CSRC_SIZE * |ssrcs| <= frame.Length
    modifies frame
    ensures Holds(frame, out + SsrcsBytes(ssrcs)) && next == ptr + SSRC_CSRC_SIZE * |ssrcs|
  {
    next := ptr;
    for i := 0 to |ssrcs|
      invariant next == ptr + SSRC_CSRC_SIZE * i
      invariant Holds(frame, out + SsrcsBytes(ssrcs[..i]))
    {
      assert ssrcs[..i + 1][..i] == ssrcs[..i];
      next := SetNextField32(frame, next, ssrcs[i], out + SsrcsBytes(ssrcs[..i]));
      assert out + SsrcsBytes(ssrcs[..i + 1]) == out + SsrcsBytes(ssrcs[..i]) + Be32(ssrcs[i]);
    }
    assert ssrcs[..|ssrcs|] == ssrcs;
  }
}
