/**
 * RTP packets: the header and parser of src/rtp.cc, and the transactions of src/frame_queue.cc,
 * whose packets point into an array of headers until they are flushed.
 */
module RtpQueue {
  import opened Bytes
  import opened Wrappers

  const RTP_HEADER_SIZE := 12
  const MAX_MSG_COUNT := 5000

  // ---------- the header ----------

  /** Version 2, no padding, extension or CSRC entries. */
  function HeaderBytes(payloadType: byte, marker: bool, sn: u16, ts: u32, ssrc: u32): (b: seq<byte>)
    ensures |b| == RTP_HEADER_SIZE
  {
    [0x80, payloadType % 0x80 + (if marker then 0x80 else 0)] + Be16(sn) + Be32(ts) + Be32(ssrc)
  }

  datatype Extension = Extension(kind: u16, data: seq<byte>)

  datatype RtpFrame = RtpFrame(marker: bool, payloadType: byte, sn: u16, ts: u32, ssrc: u32, csrc: seq<seq<byte>>,
                               ext: Option<Extension>, paddingLen: byte, payload: seq<byte>)

  /** Overrun: an extension is read beyond the packet, or is longer than what is left of it. */
  datatype Parsed = NotHandled | Invalid | Overrun | Modified(frame: RtpFrame)

  function CsrcEntries(b: seq<byte>, p: nat, count: nat): (r: seq<seq<byte>>)
    requires p + 4 * count <= |b|
    ensures |r| == count
  {
    seq(count, i requires 0 <= i < count => b[p + 4 * i..p + 4 * i + 4])
  }

  /** packet_handler */
  function ParsePacket(b: seq<byte>): Parsed {
    if |b| < RTP_HEADER_SIZE || b[0] / 0x40 != 2 then NotHandled
    else
      var (cc, ext, padding) := (b[0] % 16, b[0] / 16 % 2 == 1, b[0] / 32 % 2 == 1);
      var p := RTP_HEADER_SIZE + 4 * cc as int;
      if p > |b| then Invalid
      else if ext && (p + 4 > |b| || p + 4 + 4 * GetBe16(b, p + 2) as int > |b|) then Overrun
      else
        var q := if ext then p + 4 + 4 * GetBe16(b, p + 2) as int else p;
        var paddingLen := if padding then b[|b| - 1] else 0;
        if padding && (paddingLen == 0 || |b| - q <= paddingLen) then Invalid
        else
          Modified(RtpFrame(b[1] >= 0x80, b[1] % 0x80, GetBe16(b, 2), GetBe32(b, 4), GetBe32(b, 8),
                            CsrcEntries(b, RTP_HEADER_SIZE, cc),
                            if ext then Some(Extension(GetBe16(b, p), b[p + 4..q])) else None,
                            paddingLen, b[q..|b| - paddingLen]))
  }

  lemma HeaderFields(b: seq<byte>, first: byte, sn: u16, ts: u32, ssrc: u32)
    requires At(b, 0, [0x80, first] + Be16(sn) + Be32(ts) + Be32(ssrc))
    ensures |b| >= RTP_HEADER_SIZE && b[0] == 0x80 && b[1] == first
    ensures GetBe16(b, 2) == sn && GetBe32(b, 4) == ts && GetBe32(b, 8) == ssrc
  {
    hide Be16, Be32, GetBe16, GetBe32;
    AtSplit(b, 0, [0x80, first] + Be16(sn) + Be32(ts), Be32(ssrc));
    AtSplit(b, 0, [0x80, first] + Be16(sn), Be32(ts));
    AtSplit(b, 0, [0x80, first], Be16(sn));
    assert b[0] == b[0..2][0] && b[1] == b[0..2][1];
    Be16RoundTrip(sn, b, 2);
    Be32RoundTrip(ts, b, 4);
    Be32RoundTrip(ssrc, b, 8);
  }

  /** Parsing what was sent: every field of the header, and the payload, whatever it is. */
  lemma PacketRoundTrip(payloadType: byte, marker: bool, sn: u16, ts: u32, ssrc: u32, payload: seq<byte>)
    ensures ParsePacket(HeaderBytes(payloadType, marker, sn, ts, ssrc) + payload) ==
            Modified(RtpFrame(marker, payloadType % 0x80, sn, ts, ssrc, [], None, 0, payload))
  {
    hide Be16, Be32, GetBe16, GetBe32;
    var first := payloadType % 0x80 + (if marker then 0x80 else 0);
    var h := HeaderBytes(payloadType, marker, sn, ts, ssrc);
    var b := h + payload;
    assert b[0..|h|] == h;
    HeaderFields(b, first, sn, ts, ssrc);
    assert b[12..|b|] == payload;
  }

  // ---------- packets with CSRC entries, extensions and padding ----------

  /** The parts of a packet have the sizes its header can state. */
  predicate WellFormed(f: RtpFrame) {
    && f.payloadType < 0x80 && |f.csrc| < 16 && (forall i :: 0 <= i < |f.csrc| ==> |f.csrc[i]| == 4)
    && (f.ext.Some? ==> |f.ext.value.data| % 4 == 0 && |f.ext.value.data| < 4 * 0x1_0000)
  }

  function ExtensionBytes(ext: Option<Extension>): seq<byte>
    requires ext.Some? ==> |ext.value.data| < 4 * 0x1_0000
  {
    match ext
    case None => []
    case Some(e) => Be16(e.kind) + Be16(|e.data| / 4) + e.data
  }

  function FixedBytes(f: RtpFrame, padded: bool): (b: seq<byte>)
    requires WellFormed(f)
    ensures |b| == RTP_HEADER_SIZE
  {
    [0x80 + (if padded then 0x20 else 0) + (if f.ext.Some? then 0x10 else 0) + |f.csrc|,
     f.payloadType + (if f.marker then 0x80 else 0)] +
    Be16(f.sn) + Be32(f.ts) + Be32(f.ssrc)
  }

  /** A packet up to its payload (RFC 3550 sections 5.1 and 5.3.1). */
  function HeadBytes(f: RtpFrame, padded: bool): seq<byte>
    requires WellFormed(f)
  {
    FixedBytes(f, padded) + Flatten(f.csrc) + ExtensionBytes(f.ext)
  }

  lemma FirstOctet(padded: bool, ext: bool, cc: nat, b: byte)
    requires cc < 16 && b == 0x80 + (if padded then 0x20 else 0) + (if ext then 0x10 else 0) + cc
    ensures b / 0x40 == 2 && (b / 32 % 2 == 1 <==> padded) && (b / 16 % 2 == 1 <==> ext) && b % 16 == cc
  {}

  lemma FixedRead(b: seq<byte>, f: RtpFrame, padded: bool)
    requires WellFormed(f) && At(b, 0, FixedBytes(f, padded))
    ensures |b| >= RTP_HEADER_SIZE && b[0] / 0x40 == 2 && b[0] % 16 == |f.csrc|
    ensures (b[0] / 32 % 2 == 1 <==> padded) && (b[0] / 16 % 2 == 1 <==> f.ext.Some?)
    ensures (b[1] >= 0x80 <==> f.marker) && b[1] % 0x80 == f.payloadType
    ensures GetBe16(b, 2) == f.sn && GetBe32(b, 4) == f.ts && GetBe32(b, 8) == f.ssrc
  {
    hide Be16, Be32, GetBe16, GetBe32;
    var two := [0x80 + (if padded then 0x20 else 0) + (if f.ext.Some? then 0x10 else 0) + |f.csrc|,
                f.payloadType + (if f.marker then 0x80 else 0)];
    AtSplit(b, 0, two + Be16(f.sn) + Be32(f.ts), Be32(f.ssrc));
    AtSplit(b, 0, two + Be16(f.sn), Be32(f.ts));
    AtSplit(b, 0, two, Be16(f.sn));
    assert b[0] == b[0..2][0] && b[1] == b[0..2][1];
    FirstOctet(padded, f.ext.Some?, |f.csrc|, b[0]);
    Be16RoundTrip(f.sn, b, 2);
    Be32RoundTrip(f.ts, b, 4);
    Be32RoundTrip(f.ssrc, b, 8);
  }

  lemma {:induction false} CsrcRead(b: seq<byte>, p: nat, csrc: seq<seq<byte>>)
    requires At(b, p, Flatten(csrc)) && forall i :: 0 <= i < |csrc| ==> |csrc[i]| == 4
    ensures |Flatten(csrc)| == 4 * |csrc| && p + 4 * |csrc| <= |b| && CsrcEntries(b, p, |csrc|) == csrc
  {
    if csrc != [] {
      var i := |csrc| - 1;
      AtSplit(b, p, Flatten(csrc[..i]), csrc[i]);
      CsrcRead(b, p, csrc[..i]);
      assert CsrcEntries(b, p, |csrc|) == CsrcEntries(b, p, i) + [csrc[i]];
    }
  }

  lemma ExtensionRead(b: seq<byte>, p: nat, e: Extension)
    requires |e.data| % 4 == 0 && |e.data| < 4 * 0x1_0000 && At(b, p, ExtensionBytes(Some(e)))
    ensures p + 4 + |e.data| <= |b| && GetBe16(b, p) == e.kind && 4 * GetBe16(b, p + 2) as int == |e.data|
    ensures b[p + 4..p + 4 + |e.data|] == e.data
  {
    hide Be16, GetBe16;
    AtSplit(b, p, Be16(e.kind) + Be16(|e.data| / 4), e.data);
    AtSplit(b, p, Be16(e.kind), Be16(|e.data| / 4));
    Be16RoundTrip(e.kind, b, p);
    Be16RoundTrip(|e.data| / 4, b, p + 2);
  }

  /** What the parser makes of the octets after the head: they are payload, of which the last
      octet of a padded packet says how many to cut. */
  function Trimmed(f: RtpFrame, padded: bool, rest: seq<byte>): Parsed {
    if !padded then Modified(f.(paddingLen := 0, payload := rest))
    else if rest == [] || rest[|rest| - 1] == 0 || |rest| <= rest[|rest| - 1] then Invalid
    else
      var n := rest[|rest| - 1];
      Modified(f.(paddingLen := n, payload := rest[..|rest| - n]))
  }

  lemma HeadRead(b: seq<byte>, f: RtpFrame, padded: bool)
    requires WellFormed(f) && At(b, 0, HeadBytes(f, padded))
    ensures At(b, 0, FixedBytes(f, padded)) && At(b, RTP_HEADER_SIZE, Flatten(f.csrc))
    ensures |Flatten(f.csrc)| == 4 * |f.csrc| && CsrcEntries(b, RTP_HEADER_SIZE, |f.csrc|) == f.csrc
    ensures At(b, RTP_HEADER_SIZE + 4 * |f.csrc|, ExtensionBytes(f.ext))
  {
    hide FixedBytes, Flatten, ExtensionBytes;
    AtSplit(b, 0, FixedBytes(f, padded) + Flatten(f.csrc), ExtensionBytes(f.ext));
    AtSplit(b, 0, FixedBytes(f, padded), Flatten(f.csrc));
    CsrcRead(b, RTP_HEADER_SIZE, f.csrc);
  }

  /** The head of f stands at the start of b, and ends at q. */
  ghost predicate HeadAt(b: seq<byte>, f: RtpFrame, padded: bool, q: nat) {
    var p := RTP_HEADER_SIZE + 4 * |f.csrc|;
    && |b| >= RTP_HEADER_SIZE && b[0] / 0x40 == 2 && |f.csrc| == b[0] % 16 && f.payloadType < 0x80
    && (b[0] / 32 % 2 == 1 <==> padded) && (b[0] / 16 % 2 == 1 <==> f.ext.Some?)
    && (b[1] >= 0x80 <==> f.marker) && b[1] % 0x80 == f.payloadType
    && GetBe16(b, 2) == f.sn && GetBe32(b, 4) == f.ts && GetBe32(b, 8) == f.ssrc
    && p <= q <= |b| && f.csrc == CsrcEntries(b, RTP_HEADER_SIZE, |f.csrc|)
    && (f.ext.None? ==> q == p)
    && (f.ext.Some? ==>
          p + 4 <= q && GetBe16(b, p) == f.ext.value.kind && 4 * GetBe16(b, p + 2) as int == |f.ext.value.data| &&
          q == p + 4 + |f.ext.value.data| && f.ext.value.data == b[p + 4..q])
  }

  lemma ParseFrom(b: seq<byte>, f: RtpFrame, padded: bool, q: nat)
    requires HeadAt(b, f, padded, q)
    ensures ParsePacket(b) == Trimmed(f, padded, b[q..])
  {
    hide GetBe16, GetBe32, CsrcEntries;
    var rest := b[q..];
    assert b[q..|b|] == rest;
    if padded && rest != [] {
      assert rest[|rest| - 1] == b[|b| - 1];
      if rest[|rest| - 1] < |rest| {
        assert b[q..|b| - rest[|rest| - 1]] == rest[..|rest| - rest[|rest| - 1]];
      }
    }
  }

  lemma HeadStands(b: seq<byte>, f: RtpFrame, padded: bool)
    requires WellFormed(f) && At(b, 0, HeadBytes(f, padded))
    ensures HeadAt(b, f, padded, |HeadBytes(f, padded)|)
  {
    hide FixedBytes, Flatten, CsrcEntries, GetBe16, GetBe32, Be16;
    HeadRead(b, f, padded);
    FixedRead(b, f, padded);
    if f.ext.Some? {
      ExtensionRead(b, RTP_HEADER_SIZE + 4 * |f.csrc|, f.ext.value);
    }
  }

  /** Any head with up to 15 CSRC entries and perhaps an extension is read back, whatever follows,
      and exactly a padding that is empty or leaves no payload is refused. */
  lemma HeadIsRead(f: RtpFrame, padded: bool, rest: seq<byte>)
    requires WellFormed(f)
    ensures ParsePacket(HeadBytes(f, padded) + rest) == Trimmed(f, padded, rest)
  {
    hide HeadBytes, HeadAt, ParsePacket, Trimmed;
    var (h, b) := (HeadBytes(f, padded), HeadBytes(f, padded) + rest);
    assert b[0..|h|] == h && b[|h|..] == rest;
    HeadStands(b, f, padded);
    ParseFrom(b, f, padded, |h|);
  }

  /** A padding says its own length in its last octet. */
  predicate IsPadding(padding: seq<byte>) {
    padding == [] || (|padding| < 0x100 && padding[|padding| - 1] == |padding|)
  }

  /** The octets of a packet with this padding. */
  function PacketBytes(f: RtpFrame, padding: seq<byte>): seq<byte>
    requires WellFormed(f)
  {
    HeadBytes(f, padding != []) + (f.payload + padding)
  }

  /** A padded packet has a payload. */
  predicate Printable(f: RtpFrame, padding: seq<byte>) {
    WellFormed(f) && IsPadding(padding) && f.paddingLen == |padding| && (padding != [] ==> f.payload != [])
  }

  /** What was put together is taken apart again. */
  lemma FullRoundTrip(f: RtpFrame, padding: seq<byte>)
    requires Printable(f, padding)
    ensures ParsePacket(PacketBytes(f, padding)) == Modified(f)
  {
    hide ParsePacket, HeadBytes;
    var rest := f.payload + padding;
    HeadIsRead(f, padding != [], rest);
    if padding == [] {
      assert rest == f.payload;
    } else {
      assert rest[|rest| - 1] == padding[|padding| - 1];
      assert rest[..|rest| - |padding|] == f.payload;
    }
  }

  lemma Be16Inverse(b: seq<byte>, p: nat)
    requires p + 2 <= |b|
    ensures Be16(GetBe16(b, p)) == b[p..p + 2]
  {}

  lemma Be32Inverse(b: seq<byte>, p: nat)
    requires p + 4 <= |b|
    ensures Be32(GetBe32(b, p)) == b[p..p + 4]
  {
    Be16Inverse(b, p);
    Be16Inverse(b, p + 2);
    assert b[p..p + 4] == b[p..p + 2] + b[p + 2..p + 4];
  }

  lemma FirstOctetInverse(b: byte)
    requires b / 0x40 == 2
    ensures b == 0x80 + (if b / 32 % 2 == 1 then 0x20 else 0) + (if b / 16 % 2 == 1 then 0x10 else 0) + b % 16
  {
    assert b / 16 == b / 32 * 2 + b / 16 % 2 && b / 32 == 4 + b / 32 % 2;
  }

  lemma {:induction false} CsrcInverse(b: seq<byte>, p: nat, count: nat)
    requires p + 4 * count <= |b|
    ensures Flatten(CsrcEntries(b, p, count)) == b[p..p + 4 * count]
  {
    if count > 0 {
      var r := CsrcEntries(b, p, count);
      CsrcInverse(b, p, count - 1);
      assert r[..count - 1] == CsrcEntries(b, p, count - 1);
      assert b[p..p + 4 * count] == b[p..p + 4 * (count - 1)] + r[count - 1];
    }
  }

  lemma FixedInverse(b: seq<byte>, f: RtpFrame, padded: bool)
    requires |b| >= RTP_HEADER_SIZE && b[0] / 0x40 == 2 && WellFormed(f) && |f.csrc| == b[0] % 16
    requires (b[0] / 32 % 2 == 1 <==> padded) && (b[0] / 16 % 2 == 1 <==> f.ext.Some?)
    requires (b[1] >= 0x80 <==> f.marker) && b[1] % 0x80 == f.payloadType
    requires GetBe16(b, 2) == f.sn && GetBe32(b, 4) == f.ts && GetBe32(b, 8) == f.ssrc
    ensures FixedBytes(f, padded) == b[..RTP_HEADER_SIZE]
  {
    hide Be16, Be32, GetBe16, GetBe32;
    FirstOctetInverse(b[0]);
    Be16Inverse(b, 2);
    Be32Inverse(b, 4);
    Be32Inverse(b, 8);
    assert b[..RTP_HEADER_SIZE] == [b[0], b[1]] + b[2..4] + b[4..8] + b[8..12];
  }

  lemma ExtensionInverse(b: seq<byte>, p: nat, e: Extension)
    requires p + 4 <= |b| && GetBe16(b, p) == e.kind && 4 * GetBe16(b, p + 2) as int == |e.data|
    requires p + 4 + |e.data| <= |b| && b[p + 4..p + 4 + |e.data|] == e.data
    ensures |e.data| % 4 == 0 && |e.data| < 4 * 0x1_0000
    ensures ExtensionBytes(Some(e)) == b[p..p + 4 + |e.data|]
  {
    hide Be16, GetBe16;
    Be16Inverse(b, p);
    Be16Inverse(b, p + 2);
    assert b[p..p + 4 + |e.data|] == b[p..p + 2] + b[p + 2..p + 4] + e.data;
  }

  /** Where the parser has taken the parts of f from. */
  lemma ParsedParts(b: seq<byte>) returns (q: nat)
    requires ParsePacket(b).Modified?
    ensures var f := ParsePacket(b).frame;
            |b| >= RTP_HEADER_SIZE &&
            HeadAt(b, f, b[0] / 32 % 2 == 1, q) && f.paddingLen <= |b| - q && f.payload == b[q..|b| - f.paddingLen]
  {
    hide GetBe16, GetBe32, CsrcEntries;
    var f := ParsePacket(b).frame;
    q := |b| - f.paddingLen - |f.payload|;
  }

  lemma HeadAtIsWellFormed(b: seq<byte>, f: RtpFrame, padded: bool, q: nat)
    requires HeadAt(b, f, padded, q)
    ensures WellFormed(f) && |b| >= RTP_HEADER_SIZE && q <= |b|
  {}

  lemma HeadAtIsHead(b: seq<byte>, f: RtpFrame, padded: bool, q: nat)
    requires HeadAt(b, f, padded, q) && WellFormed(f)
    ensures HeadBytes(f, padded) == b[..q]
  {
    hide FixedBytes, Flatten, ExtensionBytes, GetBe16, GetBe32, CsrcEntries;
    var p := RTP_HEADER_SIZE + 4 * |f.csrc|;
    CsrcInverse(b, RTP_HEADER_SIZE, |f.csrc|);
    FixedInverse(b, f, padded);
    if f.ext.Some? {
      ExtensionInverse(b, p, f.ext.value);
    } else {
      NoExtension();
    }
    assert b[..q] == b[..RTP_HEADER_SIZE] + b[RTP_HEADER_SIZE..p] + b[p..q];
  }

  lemma HeadInverse(b: seq<byte>)
    requires ParsePacket(b).Modified?
    ensures var f := ParsePacket(b).frame;
            |b| >= RTP_HEADER_SIZE && WellFormed(f) && f.paddingLen as int <= |b| &&
            b == HeadBytes(f, b[0] / 32 % 2 == 1) + (f.payload + b[|b| - f.paddingLen..])
  {
    hide ParsePacket, HeadBytes, WellFormed, HeadAt;
    var f := ParsePacket(b).frame;
    var q := ParsedParts(b);
    var padded := b[0] / 32 % 2 == 1;
    HeadAtIsWellFormed(b, f, padded, q);
    HeadAtIsHead(b, f, padded, q);
    assert b == b[..q] + (b[q..|b| - f.paddingLen] + b[|b| - f.paddingLen..]);
  }

  lemma NoExtension()
    ensures ExtensionBytes(None) == []
  {}

  lemma PaddingParsed(b: seq<byte>)
    requires ParsePacket(b).Modified?
    ensures var f := ParsePacket(b).frame;
            |b| >= RTP_HEADER_SIZE && (f.paddingLen > 0 <==> b[0] / 32 % 2 == 1) &&
            (f.paddingLen > 0 ==> b[|b| - 1] == f.paddingLen && f.payload != [])
  {
    hide GetBe16, GetBe32, CsrcEntries;
  }

  /** The packets that are accepted are exactly those that can be put together so, and what is
      delivered is what they were put together from. */
  lemma AcceptedExactly(b: seq<byte>, f: RtpFrame)
    ensures ParsePacket(b) == Modified(f) <==> exists padding :: Printable(f, padding) && PacketBytes(f, padding) == b
  {
    hide ParsePacket, HeadBytes, WellFormed;
    if ParsePacket(b) == Modified(f) {
      HeadInverse(b);
      var padding := b[|b| - f.paddingLen..];
      PaddingParsed(b);
      assert padding != [] ==> padding[|padding| - 1] == b[|b| - 1];
      assert Printable(f, padding) && PacketBytes(f, padding) == b;
    }
    if padding :| Printable(f, padding) && PacketBytes(f, padding) == b {
      FullRoundTrip(f, padding);
    }
  }

  // ---------- the RTP context ----------

  const INVALID_TS := 0xffff_ffff_ffff_ffff

  class Rtp {
    const ssrc: u32
    var payloadType: byte
    var sn: u16
    var timestamp: nat  // 64 bits
    var rtpTs: u32
    var sentPkts: nat

    constructor (ssrc: u32, payloadType: byte, sn: u16)
      ensures this.ssrc == ssrc && this.payloadType == payloadType && this.sn == sn && timestamp == INVALID_TS
    {
      this.ssrc, this.payloadType, this.sn := ssrc, payloadType, sn;
      timestamp, rtpTs, sentPkts := INVALID_TS, 0, 0;
    }

    method IncSequence()
      modifies this`sn
      ensures sn == (old(sn) as int + 1) % 0x1_0000
    {
      if sn != 0xffff {
        sn := sn + 1;
      } else {
        sn := 0;
      }
    }

    /** The timestamp a header gets: one set by the user, the one used last or that of the clock. */
    function NextTimestamp(useOld: bool, clock: u32): u32
      reads this
    {
      if timestamp != INVALID_TS then Wrap32(timestamp) else if useOld then rtpTs else clock
    }

    method FillHeader(useOld: bool, clock: u32) returns (header: seq<byte>)
      modifies this`rtpTs
      ensures header == HeaderBytes(payloadType, false, sn, old(NextTimestamp(useOld, clock)), ssrc)
      ensures rtpTs == old(NextTimestamp(useOld, clock))
    {
      hide Be16, Be32;
      var buffer := new byte[RTP_HEADER_SIZE](_ => 0);
      buffer[0] := 0x80;
      buffer[1] := payloadType % 0x80;
      Store(buffer, 2, Be16(sn));
      Store(buffer, 8, Be32(ssrc));
      if useOld {
        if timestamp == INVALID_TS {
          Store(buffer, 4, Be32(rtpTs));
        } else {
          Store(buffer, 4, Be32(Wrap32(timestamp)));
          rtpTs := Wrap32(timestamp);
        }
      } else if timestamp == INVALID_TS {
        rtpTs := clock;
        Store(buffer, 4, Be32(clock));
      } else {
        Store(buffer, 4, Be32(Wrap32(timestamp)));
        rtpTs := Wrap32(timestamp);
      }
      header := buffer[..];
      FromFields(header, payloadType, sn, rtpTs, ssrc);
    }

    /** update_sequence */
    method UpdateSequence(header: seq<byte>) returns (updated: seq<byte>)
      requires |header| == RTP_HEADER_SIZE
      ensures updated == header[..2] + Be16(sn) + header[4..]
    {
      updated := header[..2] + Be16(sn) + header[4..];
    }
  }

  lemma FromFields(h: seq<byte>, payloadType: byte, sn: u16, ts: u32, ssrc: u32)
    requires |h| == RTP_HEADER_SIZE && h[0] == 0x80 && h[1] == payloadType % 0x80
    requires h[2..4] == Be16(sn) && h[4..8] == Be32(ts) && h[8..12] == Be32(ssrc)
    ensures h == HeaderBytes(payloadType, false, sn, ts, ssrc)
  {
    hide Be16, Be32;
    assert h[..2] == [0x80, payloadType % 0x80];
    assert h == h[..2] + h[2..4] + h[4..8] + h[8..12];
  }

  method Store(buffer: array<byte>, p: nat, data: seq<byte>)
    requires p + |data| <= buffer.Length
    modifies buffer
    ensures buffer[p..p + |data|] == data
    ensures forall i :: 0 <= i < buffer.Length && !(p <= i < p + |data|) ==> buffer[i] == old(buffer[i])
  {
    forall i | 0 <= i < |data| {
      buffer[p + i] := data[i];
    }
  }

  lemma WithSequence(payloadType: byte, marker: bool, sn: u16, other: u16, ts: u32, ssrc: u32)
    ensures var h := HeaderBytes(payloadType, marker, sn, ts, ssrc);
            h[..2] + Be16(other) + h[4..] == HeaderBytes(payloadType, marker, other, ts, ssrc)
  {}

  // ---------- transactions ----------

  /** A buffer of a packet: a header of the transaction's array, or octets of the caller. */
  datatype Buffer = Header(i: nat) | Chunk(data: seq<byte>)

  /** What the user has enqueued. */
  datatype Message = Message(payload: seq<byte>, marker: bool)

  function Chunks(buffers: seq<seq<byte>>): (r: seq<Buffer>)
    ensures |r| == |buffers|
  {
    seq(|buffers|, i requires 0 <= i < |buffers| => Chunk(buffers[i]))
  }

  /** What a packet is when it is sent. */
  function Gathered(headers: seq<seq<byte>>, buffers: seq<Buffer>): seq<byte> {
    if buffers == [] then [] else Gathered(headers, buffers[..|buffers| - 1]) + Pointed(headers, buffers[|buffers| - 1])
  }

  function Pointed(headers: seq<seq<byte>>, buffer: Buffer): seq<byte> {
    match buffer
    case Header(i) => if i < |headers| then headers[i] else []
    case Chunk(data) => data
  }

  /** Sequence number i of a transaction. */
  function Number(first: u16, i: nat): u16 {
    (first as int + i) % 0x1_0000
  }

  /** The marker is that asked for, except on the last of several packets. */
  function Marked(messages: seq<Message>, i: nat): bool
    requires i < |messages|
  {
    messages[i].marker || (|messages| > 1 && i == |messages| - 1)
  }

  datatype Common = Common(payloadType: byte, first: u16, ts: u32, ssrc: u32)

  function FinalHeader(c: Common, messages: seq<Message>, i: nat): seq<byte>
    requires i < |messages|
  {
    HeaderBytes(c.payloadType, Marked(messages, i), Number(c.first, i), c.ts, c.ssrc)
  }

  /** Packet i as it is on the wire. */
  function WirePacket(c: Common, messages: seq<Message>, i: nat): seq<byte>
    requires i < |messages|
  {
    FinalHeader(c, messages, i) + messages[i].payload
  }

  lemma {:induction false} GatheredChunks(headers: seq<seq<byte>>, i: nat, buffers: seq<seq<byte>>)
    requires i < |headers|
    ensures Gathered(headers, [Header(i)] + Chunks(buffers)) == headers[i] + Flatten(buffers)
  {
    var all := [Header(i)] + Chunks(buffers);
    if buffers == [] {
      assert all == [Header(i)] && all[..0] == [];
      assert Gathered(headers, all) == headers[i];
    } else {
      var init := buffers[..|buffers| - 1];
      GatheredChunks(headers, i, init);
      assert all[..|all| - 1] == [Header(i)] + Chunks(init);
      Associate(headers[i], Flatten(init), buffers[|buffers| - 1]);
    }
  }

  /** Overflow stands for a header beyond the end of the array, for which the source has no test
      and C++ no defined behaviour. */
  datatype Enqueued = Accepted | Refused | Overflow

  /** What becomes of a message, nothing or not, after n others. */
  function Outcome(nothing: bool, n: nat): Enqueued {
    if nothing then Refused else if n >= MAX_MSG_COUNT then Overflow else Accepted
  }

  class FrameQueue {
    const rtp: Rtp
    const copies: bool  // RCE_SRTP with encryption: a packet must own its octets
    const rtpHeaders: array<seq<byte>>
    var active: bool
    var rtphdrPtr: nat
    var rtpCommon: seq<byte>
    var packets: seq<seq<Buffer>>
    ghost var common: Common
    ghost var messages: seq<Message>

    /** Packet i holds the i-th header and the octets of the i-th message. */
    ghost predicate PacketKept(i: nat)
      requires i < |packets| && i < |messages|
      reads this
    {
      exists buffers :: packets[i] == [Header(i)] + Chunks(buffers) && Flatten(buffers) == messages[i].payload
    }

    ghost function HeaderAt(i: nat): seq<byte>
      requires i < |messages|
      reads this
    {
      HeaderBytes(common.payloadType, messages[i].marker, Number(common.first, i), common.ts, common.ssrc)
    }

    ghost predicate Valid()
      reads this, rtp, rtpHeaders
    {
      && active && rtpHeaders.Length == MAX_MSG_COUNT
      && rtphdrPtr == |packets| == |messages| <= MAX_MSG_COUNT
      && rtpCommon == HeaderBytes(common.payloadType, false, common.first, common.ts, common.ssrc)
      && rtp.sn == Number(common.first, |messages|)
      && (forall i :: 0 <= i < |messages| ==> rtpHeaders[i] == HeaderAt(i))
      && (forall i :: 0 <= i < |messages| ==> PacketKept(i))
    }

    constructor (rtp: Rtp, copies: bool)
      ensures this.rtp == rtp && this.copies == copies && fresh(rtpHeaders) && rtpHeaders.Length == MAX_MSG_COUNT
    {
      this.rtp, this.copies := rtp, copies;
      rtpHeaders := new seq<byte>[MAX_MSG_COUNT](_ => []);
      active, rtphdrPtr, rtpCommon, packets := false, 0, [], [];
      common, messages := Common(0, 0, 0, 0), [];
    }

    method InitTransaction(useOld: bool, clock: u32)
      requires rtpHeaders.Length == MAX_MSG_COUNT
      modifies this`active, this`rtphdrPtr, this`rtpCommon, this`packets, this`common, this`messages, rtp`rtpTs
      ensures Valid() && messages == []
      ensures common == Common(rtp.payloadType, rtp.sn, old(rtp.NextTimestamp(useOld, clock)), rtp.ssrc)
    {
      active, rtphdrPtr, packets, messages := true, 0, [], [];
      rtpCommon := rtp.FillHeader(useOld, clock);
      common := Common(rtp.payloadType, rtp.sn, rtp.rtpTs, rtp.ssrc);
    }

    method UpdateRtpHeader()
      requires Valid() && rtphdrPtr < MAX_MSG_COUNT
      modifies rtpHeaders
      ensures rtpHeaders[rtphdrPtr] == HeaderBytes(common.payloadType, false, rtp.sn, common.ts, common.ssrc)
      ensures forall i :: 0 <= i < rtphdrPtr ==> rtpHeaders[i] == old(rtpHeaders[i])
    {
      WithSequence(common.payloadType, false, common.first, rtp.sn, common.ts, common.ssrc);
      rtpHeaders[rtphdrPtr] := rtp.UpdateSequence(rtpCommon);
    }

    method EnqueueFinalize(packet: seq<Buffer>)
      modifies this`packets, rtp`sn, rtp`sentPkts
      ensures packets == old(packets) + [packet] && rtp.sn == (old(rtp.sn) as int + 1) % 0x1_0000
      ensures rtp.sentPkts == old(rtp.sentPkts) + 1
    {
      packets := packets + [packet];
      rtp.IncSequence();
      rtp.sentPkts := rtp.sentPkts + 1;
    }

    /** A message of one buffer; an empty one is refused. */
    method EnqueueMessage(message: seq<byte>, setMBit: bool) returns (r: Enqueued)
      requires Valid()
      modifies this`rtphdrPtr, this`packets, this`messages, rtp`sn, rtp`sentPkts, rtpHeaders
      ensures Valid() && r == Outcome(message == [], |old(messages)|)
      ensures messages == if r.Accepted? then old(messages) + [Message(message, setMBit)] else old(messages)
    {
      if message == [] {
        return Refused;
      }
      if rtphdrPtr >= MAX_MSG_COUNT {
        return Overflow;
      }
      UpdateRtpHeader();
      if setMBit {
        var header := rtpHeaders[rtphdrPtr];
        rtpHeaders[rtphdrPtr] := header[1 := header[1] % 0x80 + 0x80];
        assert rtpHeaders[rtphdrPtr] == HeaderBytes(common.payloadType, true, rtp.sn, common.ts, common.ssrc);
      }
      FlattenOne(message);
      assert [Header(rtphdrPtr), Chunk(message)] == [Header(rtphdrPtr)] + Chunks([message]);
      Advance([Header(rtphdrPtr), Chunk(message)], [message], setMBit);
      r := Accepted;
    }

    /** The packet is complete, and its header the last one used. */
    method Advance(packet: seq<Buffer>, ghost buffers: seq<seq<byte>>, ghost marker: bool)
      requires active && rtpHeaders.Length == MAX_MSG_COUNT && rtphdrPtr == |packets| == |messages| < MAX_MSG_COUNT
      requires rtpCommon == HeaderBytes(common.payloadType, false, common.first, common.ts, common.ssrc)
      requires rtp.sn == Number(common.first, |messages|)
      requires forall i :: 0 <= i < |messages| ==> rtpHeaders[i] == HeaderAt(i) && PacketKept(i)
      requires rtpHeaders[rtphdrPtr] == HeaderBytes(common.payloadType, marker, rtp.sn, common.ts, common.ssrc)
      requires packet == [Header(rtphdrPtr)] + Chunks(buffers)
      modifies this`rtphdrPtr, this`packets, this`messages, rtp`sn, rtp`sentPkts
      ensures Valid() && messages == old(messages) + [Message(Flatten(buffers), marker)]
    {
      hide HeaderBytes, Number, Flatten, Chunks;
      ghost var n := |messages|;
      ghost var kept := packets;
      assert forall i :: 0 <= i < n ==> PacketKept(i);
      EnqueueFinalize(packet);
      rtphdrPtr := rtphdrPtr + 1;
      messages := messages + [Message(Flatten(buffers), marker)];
      NextNumber(common.first, n);
      forall i | 0 <= i < n
        ensures PacketKept(i)
      {
        assert packets[i] == kept[i] && messages[i] == old(messages)[i];
        assert old(PacketKept(i));
        var bs :| kept[i] == [Header(i)] + Chunks(bs) && Flatten(bs) == old(messages)[i].payload;
        assert packets[i] == [Header(i)] + Chunks(bs);
      }
      assert packets[n] == [Header(n)] + Chunks(buffers) && messages[n].payload == Flatten(buffers);
      assert PacketKept(n);
    }

    /** A message of several buffers, which are sent from where they are or, if the packet must
        own its octets, copied into one. */
    method EnqueueBuffers(buffers: seq<seq<byte>>) returns (r: Enqueued)
      requires Valid()
      modifies this`rtphdrPtr, this`packets, this`messages, rtp`sn, rtp`sentPkts, rtpHeaders
      ensures Valid() && r == Outcome(buffers == [], |old(messages)|)
      ensures messages == if r.Accepted? then old(messages) + [Message(Flatten(buffers), false)] else old(messages)
    {
      if buffers == [] {
        return Refused;
      }
      if rtphdrPtr >= MAX_MSG_COUNT {
        return Overflow;
      }
      UpdateRtpHeader();
      if copies && |buffers| > 1 {
        var mem := CopyTogether(buffers);
        FlattenOne(mem);
        assert [Header(rtphdrPtr), Chunk(mem)] == [Header(rtphdrPtr)] + Chunks([mem]);
        Advance([Header(rtphdrPtr), Chunk(mem)], [mem], false);
      } else {
        Advance([Header(rtphdrPtr)] + Chunks(buffers), buffers, false);
      }
      r := Accepted;
    }

    /** The marker of the last of several packets is set in the array its buffer points to. */
    method MarkLast()
      requires Valid()
      modifies rtpHeaders
      ensures forall i :: 0 <= i < |messages| ==> rtpHeaders[i] == FinalHeader(common, messages, i)
    {
      assert forall i :: 0 <= i < |messages| ==> rtpHeaders[i] == HeaderAt(i);
      if |packets| > 1 {
        var header := rtpHeaders[rtphdrPtr - 1];
        assert header == HeaderAt(rtphdrPtr - 1);
        rtpHeaders[rtphdrPtr - 1] := header[1 := header[1] % 0x80 + 0x80];
      }
    }

    /** Nothing is sent of an empty transaction. */
    method FlushQueue() returns (r: Option<seq<seq<byte>>>)
      requires Valid()
      modifies this`active, rtpHeaders
      ensures !active && (r.None? <==> messages == [])
      ensures r.Some? ==> |r.value| == |messages| &&
                          forall i :: 0 <= i < |r.value| ==> r.value[i] == WirePacket(common, messages, i)
    {
      hide FinalHeader, Gathered, Flatten;
      if packets == [] {
        active := false;
        return None;
      }
      assert forall i :: 0 <= i < |messages| ==> PacketKept(i);
      MarkLast();
      var sent := Send();
      forall i | 0 <= i < |messages|
        ensures sent[i] == WirePacket(common, messages, i)
      {
        assert PacketKept(i);
        var bs :| packets[i] == [Header(i)] + Chunks(bs) && Flatten(bs) == messages[i].payload;
        GatheredChunks(rtpHeaders[..], i, bs);
      }
      r := Some(sent);
      active := false;
    }

    /** Scatter/gather output. */
    method Send() returns (sent: seq<seq<byte>>)
      ensures |sent| == |packets| && forall i :: 0 <= i < |sent| ==> sent[i] == Gathered(rtpHeaders[..], packets[i])
    {
      sent := [];
      for i := 0 to |packets|
        invariant |sent| == i && forall k :: 0 <= k < i ==> sent[k] == Gathered(rtpHeaders[..], packets[k])
      {
        sent := sent + [Gathered(rtpHeaders[..], packets[i])];
      }
    }
  }

  lemma NextNumber(first: u16, n: nat)
    ensures (Number(first, n) as int + 1) % 0x1_0000 == Number(first, n + 1)
  {}

  method CopyTogether(buffers: seq<seq<byte>>) returns (mem: seq<byte>)
    ensures mem == Flatten(buffers)
  {
    mem := [];
    for i := 0 to |buffers|
      invariant mem == Flatten(buffers[..i])
    {
      assert buffers[..i + 1] == buffers[..i] + [buffers[i]];
      FlattenSnoc(buffers[..i], buffers[i]);
      mem := mem + buffers[i];
    }
    assert buffers[..|buffers|] == buffers;
  }

  /** A transaction survives the wire: for any messages, however they were enqueued, packet i is
      parsed to message i, with consecutive sequence numbers modulo 65536, one timestamp, SSRC
      and payload type, and the marker only where asked for or on the last of several packets. */
  lemma TransactionSurvives(c: Common, messages: seq<Message>, i: nat)
    requires i < |messages|
    ensures ParsePacket(WirePacket(c, messages, i)) ==
            Modified(RtpFrame(Marked(messages, i), c.payloadType % 0x80, Number(c.first, i), c.ts, c.ssrc, [], None, 0,
                              messages[i].payload))
    ensures i + 1 < |messages| ==> Number(c.first, i + 1) == (Number(c.first, i) as int + 1) % 0x1_0000
    ensures (forall k :: 0 <= k < |messages| ==> !messages[k].marker) ==>
              (Marked(messages, i) <==> i == |messages| - 1 && |messages| > 1)
  {
    PacketRoundTrip(c.payloadType, Marked(messages, i), Number(c.first, i), c.ts, c.ssrc, messages[i].payload);
    NextNumber(c.first, i);
  }
}
