/**
 * The V3C sample stream as examples/v3c/v3c_util.cc writes it (ISO/IEC 23090-5): sizes, unit
 * headers, units and groups of frames.
 */
module V3cFormat {
  import opened Bytes

  const V3C_HDR_LEN := 4
  const SAMPLE_STREAM_HDR_LEN := 1
  const MAX_V3C_SIZE_PREC := 8

  // ---------- sizes ----------

  /** The low n octets of x, the most significant one first. */
  function BigEndian(x: nat, n: nat): (b: seq<byte>)
    ensures |b| == n
  {
    if n == 0 then [] else BigEndian(x / 0x100, n - 1) + [x % 0x100]
  }

  function Number(b: seq<byte>): nat {
    if b == [] then 0 else Number(b[..|b| - 1]) * 0x100 + b[|b| - 1]
  }

  lemma {:induction false} NumberBound(b: seq<byte>)
    ensures Number(b) < Pow2(8 * |b|)
  {
    if b != [] {
      NumberBound(b[..|b| - 1]);
      Pow2Byte(8 * (|b| - 1));
    }
  }

  lemma OneByteMore(x: nat, p: nat)
    requires p > 0
    ensures x % (0x100 * p) == x / 0x100 % p * 0x100 + x % 0x100
  {
    var (y, r) := (x / 0x100, x % 0x100);
    var (q, s) := (y / p, y % p);
    assert y == q * p + s && 0 <= s < p;
    Regroup(q, p, s, r);
    DivModUnique(x, 0x100 * p, q, s * 0x100 + r);
  }

  lemma Regroup(q: nat, p: nat, y: nat, r: nat)
    ensures (q * p + y) * 0x100 + r == q * (0x100 * p) + (y * 0x100 + r)
  {}

  /** A size survives if it fits the octets it is given; else its high octets are lost. */
  lemma {:induction false} SizeRoundTrip(x: nat, n: nat)
    ensures Number(BigEndian(x, n)) == x % Pow2(8 * n)
  {
    if n > 0 {
      SizeRoundTrip(x / 0x100, n - 1);
      Pow2Byte(8 * (n - 1));
      OneByteMore(x, Pow2(8 * (n - 1)));
      var b := BigEndian(x, n);
      assert b[..|b| - 1] == BigEndian(x / 0x100, n - 1);
    }
  }

  lemma SizeFits(x: nat, n: nat)
    ensures Number(BigEndian(x, n)) == x <==> x < Pow2(8 * n)
  {
    SizeRoundTrip(x, n);
    NumberBound(BigEndian(x, n));
    if x < Pow2(8 * n) {
      DivModUnique(x, Pow2(8 * n), 0, x);
    }
  }

  lemma CombineStep(r: nat, d: byte, k: nat)
    ensures Or(r * Pow2(8 * (k + 1)), d * Pow2(8 * k)) == (r * 0x100 + d) * Pow2(8 * k)
  {
    var p := Pow2(8 * k);
    Pow2Byte(8 * k);
    ProductBelow(d, 0x100, p);
    OrDisjoint(r, d * p, 8 * k + 8);
    Distribute(r, d, p);
  }

  lemma ProductBelow(x: nat, y: nat, p: nat)
    requires x < y && p > 0
    ensures x * p < y * p
  {}

  lemma Distribute(r: nat, d: nat, p: nat)
    ensures r * (0x100 * p) + d * p == (r * 0x100 + d) * p
  {}

  /** combineBytes */
  method CombineBytes(bytes: seq<byte>) returns (combined: nat)
    requires |bytes| <= MAX_V3C_SIZE_PREC
    ensures combined == Number(bytes)
  {
    combined := 0;
    var n := |bytes|;
    for i := 0 to n
      invariant combined == Number(bytes[..i]) * Pow2(8 * (n - i))
    {
      CombineStep(Number(bytes[..i]), bytes[i], n - 1 - i);
      assert bytes[..i + 1][..i] == bytes[..i];
      combined := Or(combined, bytes[i] * Pow2(8 * (n - 1 - i)));
    }
    assert bytes[..n] == bytes;
  }

  lemma {:induction false} BigEndianAt(x: nat, n: nat, k: nat)
    requires k < n
    ensures BigEndian(x, n)[n - 1 - k] == x / Pow2(8 * k) % 0x100
  {
    if k > 0 {
      BigEndianAt(x / 0x100, n - 1, k - 1);
      Pow2Byte(8 * (k - 1));
      DivideTwice(x, Pow2(8 * (k - 1)));
    }
  }

  lemma DivideTwice(x: nat, p: nat)
    requires p > 0
    ensures x / 0x100 / p == x / (0x100 * p)
  {
    var (y, r) := (x / 0x100, x % 0x100);
    var (q, s) := (y / p, y % p);
    assert y == q * p + s && 0 <= s < p;
    Regroup(q, p, s, r);
    DivModUnique(x, 0x100 * p, q, s * 0x100 + r);
  }

  /** convert_size_big_endian */
  method ConvertSizeBigEndian(x: nat, out: array<byte>, outputSize: nat)
    requires outputSize <= out.Length
    modifies out
    ensures out[..outputSize] == BigEndian(x, outputSize)
    ensures forall i :: outputSize <= i < out.Length ==> out[i] == old(out[i])
  {
    ghost var b := BigEndian(x, outputSize);
    for i := 0 to outputSize
      invariant forall k :: outputSize - i <= k < outputSize ==> out[k] == b[k]
      invariant forall k :: outputSize <= k < out.Length ==> out[k] == old(out[k])
    {
      BigEndianAt(x, outputSize, i);
      out[outputSize - i - 1] := x / Pow2(8 * i) % 0x100;
    }
  }

  // ---------- unit headers ----------

  datatype Header =
    | Vps
    | Ad(psid: byte, atlas: byte)
    | Ovd(psid: byte, atlas: byte)
    | Gvd(psid: byte, atlas: byte, mapIndex: byte, aux: bool)
    | Avd(psid: byte, atlas: byte, attribute: byte, partition: byte, mapIndex: byte, aux: bool)
    | Pvd(psid: byte, atlas: byte)
    | Cad(psid: byte)
    | Unknown(kind: byte)

  function TypeOf(h: Header): byte {
    match h
    case Vps => 0
    case Ad(_, _) => 1
    case Ovd(_, _) => 2
    case Gvd(_, _, _, _) => 3
    case Avd(_, _, _, _, _, _) => 4
    case Pvd(_, _) => 5
    case Cad(_) => 6
    case Unknown(kind) => kind
  }

  /** Every type but the parameter set has a header of fields. */
  predicate HasFields(h: Header) {
    !h.Vps? && !h.Unknown?
  }

  function Bit(x: bool): byte {
    if x then 1 else 0
  }

  function SecondOctet(h: Header): byte
    requires HasFields(h)
  {
    OrBytes(h.psid % 2 * 0x80,
            match h
            case Cad(_) => 0
            case Ad(_, atlas) => atlas % 64 * 2
            case Ovd(_, atlas) => atlas % 64 * 2
            case Pvd(_, atlas) => atlas % 64 * 2
            case Gvd(_, atlas, mapIndex, _) => OrBytes(atlas % 64 * 2, mapIndex % 16 / 8)
            case Avd(_, atlas, attribute, _, _, _) => OrBytes(atlas % 64 * 2, attribute / 64 % 2 * 64 / 0x80))
  }

  function OrBytes(x: byte, y: byte): byte {
    PowersUpTo8();
    OrBelow(x, y, 8);
    Or(x, y)
  }

  lemma {:induction false} OrBelow(x: nat, y: nat, k: nat)
    requires x < Pow2(k) && y < Pow2(k)
    ensures Or(x, y) < Pow2(k)
  {
    if x != 0 && y != 0 {
      OrBelow(x / 2, y / 2, k - 1);
    }
  }

  lemma PowersUpTo8()
    ensures Pow2(1) == 2 && Pow2(2) == 4 && Pow2(3) == 8 && Pow2(4) == 16 && Pow2(5) == 32 && Pow2(6) == 64
    ensures Pow2(7) == 128 && Pow2(8) == 256
  {
    assert Pow2(3) == 8;
    assert Pow2(6) == 64;
  }

  function FirstOctet(h: Header): byte
    requires HasFields(h)
  {
    OrBytes(TypeOf(h) * 8, h.psid % 16 / 2)
  }

  function ThirdOctet(h: Header): byte {
    match h
    case Gvd(_, _, mapIndex, aux) => OrBytes(mapIndex % 8 * 32, Bit(aux) * 16)
    case Avd(_, _, attribute, partition, _, _) => OrBytes(attribute % 64 * 4, partition / 8 % 4)
    case _ => 0
  }

  /** In an AVD header, the map index is not cut down to the bits that are left for it. */
  function FourthOctet(h: Header): byte {
    match h
    case Avd(_, _, _, partition, mapIndex, aux) => Or(Or(partition % 8 * 32, mapIndex * 2), Bit(aux)) % 0x100
    case _ => 0
  }

  function HeaderBytes(h: Header): (b: seq<byte>)
    requires HasFields(h)
    ensures |b| == V3C_HDR_LEN
  {
    [FirstOctet(h), SecondOctet(h), ThirdOctet(h), FourthOctet(h)]
  }

  /** The octets of a header that are looked at, up to the precision octet of atlas units. */
  function Span(kind: byte): nat {
    if kind == 0 || kind > 6 then 1
    else if kind == 1 || kind == 6 then 5
    else if kind == 3 then 3
    else if kind == 4 then 4
    else 2
  }

  /** parse_v3c_header */
  function ParseHeader(b: seq<byte>, p: nat): Header
    requires p < |b| && p + Span(b[p] / 8) <= |b|
  {
    var kind := b[p] / 8;
    if kind == 0 then Vps
    else if kind > 6 then Unknown(kind)
    else
      var psid := OrBytes(b[p] % 8 * 2, b[p + 1] / 0x80);
      var atlas := b[p + 1] / 2 % 64;
      if kind == 1 then Ad(psid, atlas)
      else if kind == 2 then Ovd(psid, atlas)
      else if kind == 3 then Gvd(psid, atlas, OrBytes(b[p + 1] % 2 * 8, b[p + 2] / 32), b[p + 2] / 16 % 2 == 1)
      else if kind == 4 then
        Avd(psid, atlas, OrBytes(b[p + 1] % 2 * 64, b[p + 2] / 4), OrBytes(b[p + 2] % 4, b[p + 3] / 32),
            b[p + 3] / 2 % 16, b[p + 3] % 2 == 1)
      else if kind == 5 then Pvd(psid, atlas)
      else Cad(psid)
  }

  /** What is left of a header once it has been written and read. */
  function Carried(h: Header): Header {
    match h
    case Vps => h
    case Ad(psid, atlas) => Ad(psid % 16, atlas % 64)
    case Ovd(psid, atlas) => Ovd(psid % 16, atlas % 64)
    case Gvd(psid, atlas, mapIndex, aux) => Gvd(psid % 16, atlas % 64, mapIndex % 16, aux)
    case Avd(psid, atlas, attribute, partition, mapIndex, aux) =>
      Avd(psid % 16, atlas % 64, attribute % 64, OrBytes(partition / 8 % 4, OrBytes(partition % 8, mapIndex / 16) % 8),
          mapIndex % 16, aux)
    case Pvd(psid, atlas) => Pvd(psid % 16, atlas % 64)
    case Cad(psid) => Cad(psid % 16)
    case Unknown(_) => h
  }

  // Operands without a common bit add up.

  lemma OrSum(x: nat, y: nat, p: nat, k: nat)
    requires p == Pow2(k) && y < p
    ensures Or(x * p, y) == x * p + y
  {
    OrDisjoint(x, y, k);
  }

  lemma OrSum2(x: nat, y: nat)
    requires y < 2
    ensures Or(x * 2, y) == x * 2 + y
  {
    assert Pow2(1) == 2;
    OrSum(x, y, 2, 1);
  }

  lemma OrSum4(x: nat, y: nat)
    requires y < 4
    ensures Or(x * 4, y) == x * 4 + y
  {
    assert Pow2(2) == 4;
    OrSum(x, y, 4, 2);
  }

  lemma OrSum8(x: nat, y: nat)
    requires y < 8
    ensures Or(x * 8, y) == x * 8 + y
  {
    assert Pow2(3) == 8;
    OrSum(x, y, 8, 3);
  }

  lemma OrSum32(x: nat, y: nat)
    requires y < 32
    ensures Or(x * 32, y) == x * 32 + y
  {
    PowersUpTo8();
    OrSum(x, y, 32, 5);
  }

  lemma OrSum128(x: nat, y: nat)
    requires y < 128
    ensures Or(x * 128, y) == x * 128 + y
  {
    PowersUpTo8();
    OrSum(x, y, 128, 7);
  }

  /** What overlaps above the low five bits. */
  lemma OrOver32(x: nat, m: nat)
    ensures Or(x * 32, m * 2) == Or(x, m / 16) * 32 + m % 16 * 2
  {
    PowersUpTo8();
    OrShifted(x, m * 2, 5);
    HalfOf(m);
  }

  lemma FirstOctetIs(h: Header)
    requires HasFields(h)
    ensures FirstOctet(h) == TypeOf(h) * 8 + h.psid % 16 / 2
  {
    OrSum8(TypeOf(h), h.psid % 16 / 2);
  }

  function AtlasOf(h: Header): byte {
    match h
    case Ad(_, atlas) => atlas
    case Ovd(_, atlas) => atlas
    case Gvd(_, atlas, _, _) => atlas
    case Avd(_, atlas, _, _, _, _) => atlas
    case Pvd(_, atlas) => atlas
    case _ => 0
  }

  /** The last bit of the second octet. */
  function LastBit(h: Header): (x: byte)
    ensures x < 2
  {
    if h.Gvd? then h.mapIndex % 16 / 8 else 0
  }

  lemma SecondBits(p: nat, a: nat, x: nat)
    requires p < 2 && a < 64 && x < 2
    ensures Or(p * 0x80, Or(a * 2, x)) == p * 0x80 + a * 2 + x
    ensures Or(p * 0x80, a * 2) == p * 0x80 + a * 2
  {
    OrSum2(a, x);
    OrSum128(p, a * 2 + x);
    OrSum128(p, a * 2);
  }

  lemma SecondOctetIs(h: Header)
    requires HasFields(h)
    ensures SecondOctet(h) == h.psid % 2 * 0x80 + AtlasOf(h) % 64 * 2 + LastBit(h)
  {
    SecondBits(h.psid % 2, AtlasOf(h) % 64, LastBit(h));
  }

  lemma GvdOctets(h: Header)
    requires h.Gvd?
    ensures ThirdOctet(h) == h.mapIndex % 8 * 32 + Bit(h.aux) * 16
  {
    OrSum32(h.mapIndex % 8, Bit(h.aux) * 16);
  }

  lemma FourthBits(p: nat, m: nat, x: nat)
    requires x < 2
    ensures Or(Or(p * 32, m * 2), x) % 0x100 == Or(p, m / 16) % 8 * 32 + m % 16 * 2 + x
  {
    OrOver32(p, m);
    LowOctet(Or(p, m / 16), m % 16, x);
    OrSum2(Or(p, m / 16) * 16 + m % 16, x);
  }

  /** The bits of the map index above the fourth end up in the partition index. */
  lemma AvdOctets(h: Header)
    requires h.Avd?
    ensures ThirdOctet(h) == h.attribute % 64 * 4 + h.partition / 8 % 4
    ensures FourthOctet(h) == Or(h.partition % 8, h.mapIndex / 16) % 8 * 32 + h.mapIndex % 16 * 2 + Bit(h.aux)
  {
    OrSum4(h.attribute % 64, h.partition / 8 % 4);
    FourthBits(h.partition % 8, h.mapIndex, Bit(h.aux));
  }

  lemma HalfOf(m: nat)
    ensures m * 2 / 32 == m / 16 && m * 2 % 32 == m % 16 * 2
  {}

  lemma LowOctet(q: nat, r: nat, x: nat)
    requires r < 16 && x < 2
    ensures q * 32 + r * 2 == (q * 16 + r) * 2
    ensures (q * 32 + r * 2 + x) % 0x100 == q % 8 * 32 + r * 2 + x
  {
    DivModUnique(q * 32 + r * 2 + x, 0x100, q / 8, q % 8 * 32 + r * 2 + x);
  }

  /** The first two octets taken apart. */
  lemma FirstFields(t: byte, psid: byte, atlas: byte, x: nat, b0: byte, b1: byte)
    requires t < 32 && x < 2 && b0 == t * 8 + psid % 16 / 2 && b1 == psid % 2 * 0x80 + atlas % 64 * 2 + x
    ensures b0 / 8 == t && OrBytes(b0 % 8 * 2, b1 / 0x80) == psid % 16 && b1 / 2 % 64 == atlas % 64 && b1 % 2 == x
  {
    SecondTakenApart(psid % 2, atlas % 64, x, b1);
    assert b0 % 8 == psid % 16 / 2;
    OrSum2(psid % 16 / 2, psid % 2);
  }

  lemma SecondTakenApart(p: nat, a: nat, x: nat, b: nat)
    requires p < 2 && a < 64 && x < 2 && b == p * 0x80 + a * 2 + x
    ensures b / 0x80 == p && b / 2 % 64 == a && b % 2 == x
  {
    assert b / 2 == p * 64 + a;
  }

  lemma GvdTakenApart(m: nat, x: nat, b: nat)
    requires x < 2 && b == m * 32 + x * 16
    ensures b / 32 == m && b / 16 % 2 == x
  {}

  lemma LowFour(m: nat)
    ensures m % 16 / 8 * 8 + m % 8 == m % 16
  {}

  lemma GvdFields(m: byte, x: byte, b2: byte)
    requires x < 2 && b2 == m % 8 * 32 + x * 16
    ensures OrBytes(m % 16 / 8 * 8, b2 / 32) == m % 16 && b2 / 16 % 2 == x
  {
    GvdTakenApart(m % 8, x, b2);
    OrSum8(m % 16 / 8, m % 8);
    LowFour(m);
  }

  lemma AvdFields(a: byte, p: nat, q: nat, m: nat, x: nat, b2: byte, b3: byte)
    requires p < 4 && q < 8 && m < 16 && x < 2 && b2 == a % 64 * 4 + p && b3 == q * 32 + m * 2 + x
    ensures OrBytes(0, b2 / 4) == a % 64 && b2 % 4 == p && b3 / 32 == q && b3 / 2 % 16 == m && b3 % 2 == x
  {
    AvdTakenApart(q, m, x, b3);
  }

  lemma AvdTakenApart(q: nat, m: nat, x: nat, b: nat)
    requires m < 16 && x < 2 && b == q * 32 + m * 2 + x
    ensures b / 32 == q && b / 2 % 16 == m && b % 2 == x
  {
    assert b / 2 == q * 16 + m;
  }

  /** Reading a header just written gives what it can carry. */
  lemma HeaderRoundTrip(h: Header, b: seq<byte>, p: nat)
    requires HasFields(h) && At(b, p, HeaderBytes(h)) && p + Span(TypeOf(h)) <= |b|
    ensures b[p] / 8 == TypeOf(h) && ParseHeader(b, p) == Carried(h)
  {
    var w := HeaderBytes(h);
    FirstOctetIs(h);
    SecondOctetIs(h);
    assert b[p] == b[p..p + 4][0] == w[0] && b[p + 1] == b[p..p + 4][1] == w[1];
    assert b[p + 2] == b[p..p + 4][2] == w[2] && b[p + 3] == b[p..p + 4][3] == w[3];
    FirstFields(TypeOf(h), h.psid, AtlasOf(h), LastBit(h), b[p], b[p + 1]);
    if h.Gvd? {
      GvdOctets(h);
      GvdFields(h.mapIndex, Bit(h.aux), b[p + 2]);
    } else if h.Avd? {
      AvdOctets(h);
      AvdFields(h.attribute, h.partition / 8 % 4, Or(h.partition % 8, h.mapIndex / 16) % 8, h.mapIndex % 16, Bit(h.aux),
                b[p + 2], b[p + 3]);
    }
  }

  /** A header survives exactly if every field fits the bits it is given. */
  lemma HeaderIsExact(h: Header)
    requires HasFields(h)
    ensures Carried(h) == h <==>
            h.psid < 16 && (!h.Cad? ==> h.atlas < 64) && (h.Gvd? || h.Avd? ==> h.mapIndex < 16) &&
            (h.Avd? ==> h.attribute < 64 && h.partition < 8)
  {
    PowersUpTo8();
    if h.Avd? {
      OrBelow(h.partition / 8 % 4, OrBytes(h.partition % 8, h.mapIndex / 16) % 8, 3);
    }
  }

  // ---------- units and groups of frames ----------

  /** ptr adds up the sizes of the NAL units as they are received. */
  datatype Unit = Unit(precision: nat, header: Header, nals: seq<seq<byte>>, ptr: nat, ready: bool)

  /** get_v3c_unit_size; it knows no size for the types that are not received. */
  function UnitSize(u: Unit): nat {
    if u.header.Ad? then V3C_HDR_LEN + SAMPLE_STREAM_HDR_LEN + u.ptr + |u.nals| * u.precision
    else if u.header.Ovd? || u.header.Gvd? || u.header.Avd? then V3C_HDR_LEN + u.ptr + |u.nals| * u.precision
    else 0
  }

  function NalBytes(nal: seq<byte>, precision: nat): (b: seq<byte>)
    ensures |b| == precision + |nal|
  {
    BigEndian(|nal| % 0x1_0000_0000, precision) + nal
  }

  function NalPieces(nals: seq<seq<byte>>, precision: nat): (ps: seq<seq<byte>>)
    ensures |ps| == |nals|
  {
    seq(|nals|, i requires 0 <= i < |nals| => NalBytes(nals[i], precision))
  }

  function Sizes(nals: seq<seq<byte>>, n: nat): nat
    requires n <= |nals|
  {
    if n == 0 then 0 else Sizes(nals, n - 1) + |nals[n - 1]|
  }

  lemma {:induction false} PiecesSize(nals: seq<seq<byte>>, precision: nat, n: nat)
    requires n <= |nals|
    ensures |Flatten(NalPieces(nals, precision)[..n])| == Sizes(nals, n) + n * precision
  {
    if n > 0 {
      PiecesSize(nals, precision, n - 1);
      var ps := NalPieces(nals, precision);
      assert ps[..n] == ps[..n - 1] + [ps[n - 1]];
      FlattenSnoc(ps[..n - 1], ps[n - 1]);
      OneMoreTime(n, precision);
    }
  }

  lemma OneMoreTime(n: nat, k: nat)
    requires n > 0
    ensures n * k == (n - 1) * k + k
  {}

  /** The unit header and, in atlas units, the octet with the precision of NAL unit sizes. */
  function UnitHead(u: Unit): (b: seq<byte>)
    requires HasFields(u.header) && u.precision > 0
    ensures |b| == V3C_HDR_LEN + (if u.header.Ad? || u.header.Cad? then SAMPLE_STREAM_HDR_LEN else 0)
  {
    HeaderBytes(u.header) + (if u.header.Ad? || u.header.Cad? then [(u.precision - 1) * 32 % 0x100] else [])
  }

  /** The octets of a unit after its size. */
  function PayloadBytes(u: Unit): seq<byte>
    requires HasFields(u.header) && u.precision > 0
  {
    UnitHead(u) + Flatten(NalPieces(u.nals, u.precision))
  }

  function UnitBytes(u: Unit, v3cPrecision: nat): seq<byte>
    requires HasFields(u.header) && u.precision > 0
  {
    BigEndian(UnitSize(u), v3cPrecision) + PayloadBytes(u)
  }

  predicate Received(h: Header) {
    h.Ad? || h.Ovd? || h.Gvd? || h.Avd?
  }

  /** The size of a unit is that of its octets, as long as ptr is kept right. */
  lemma UnitSizeIsRight(u: Unit)
    requires Received(u.header) && u.precision > 0
    ensures UnitSize(u) == |PayloadBytes(u)| <==> u.ptr == Sizes(u.nals, |u.nals|)
  {
    PiecesSize(u.nals, u.precision, |u.nals|);
    assert NalPieces(u.nals, u.precision)[..|u.nals|] == NalPieces(u.nals, u.precision);
  }

  datatype Gof = Gof(vps: seq<byte>, ad: Unit, ovd: Unit, gvd: Unit, avd: Unit)

  function VpsBytes(vps: seq<byte>, v3cPrecision: nat): seq<byte> {
    BigEndian(|vps| % 0x1_0000_0000, v3cPrecision) + vps[..|vps| % 0x1_0000_0000]
  }

  predicate Writable(u: Unit) {
    HasFields(u.header) && 0 < u.precision <= MAX_V3C_SIZE_PREC
  }

  predicate WritableGof(g: Gof) {
    Writable(g.ad) && Writable(g.ovd) && Writable(g.gvd) && Writable(g.avd)
  }

  function SampleStreamHeader(v3cPrecision: nat): byte
    requires v3cPrecision > 0
  {
    (v3cPrecision - 1) % 8 * 32
  }

  function GofPieces(g: Gof, v3cPrecision: nat): seq<seq<byte>>
    requires WritableGof(g)
  {
    [VpsBytes(g.vps, v3cPrecision), UnitBytes(g.ad, v3cPrecision), UnitBytes(g.ovd, v3cPrecision),
     UnitBytes(g.gvd, v3cPrecision), UnitBytes(g.avd, v3cPrecision)]
  }

  function GofBytes(hdrByte: bool, g: Gof, v3cPrecision: nat): seq<byte>
    requires WritableGof(g) && v3cPrecision > 0
  {
    (if hdrByte then [SampleStreamHeader(v3cPrecision)] else []) + Flatten(GofPieces(g, v3cPrecision))
  }

  /** get_gof_size */
  function GofSize(hdrByte: bool, g: Gof, v3cPrecision: nat): nat {
    (if hdrByte then 1 else 0) + (|g.vps| + v3cPrecision) + (UnitSize(g.ad) + v3cPrecision) +
    (UnitSize(g.ovd) + v3cPrecision) + (UnitSize(g.gvd) + v3cPrecision) + (UnitSize(g.avd) + v3cPrecision)
  }

  predicate PtrIsRight(u: Unit) {
    u.ptr == Sizes(u.nals, |u.nals|)
  }

  lemma FlattenFive(a: seq<byte>, b: seq<byte>, c: seq<byte>, d: seq<byte>, e: seq<byte>)
    ensures Flatten([a, b, c, d, e]) == a + b + c + d + e
    ensures |Flatten([a, b, c, d, e])| == |a| + |b| + |c| + |d| + |e|
  {
    FlattenOne(a);
    FlattenSnoc([a], b);
    FlattenSnoc([a, b], c);
    FlattenSnoc([a, b, c], d);
    FlattenSnoc([a, b, c, d], e);
    assert [a] + [b] == [a, b] && [a, b] + [c] == [a, b, c] && [a, b, c] + [d] == [a, b, c, d];
    assert [a, b, c, d] + [e] == [a, b, c, d, e];
  }

  lemma UnitBytesSize(u: Unit, v3cPrecision: nat)
    requires Received(u.header) && u.precision > 0 && PtrIsRight(u)
    ensures |UnitBytes(u, v3cPrecision)| == UnitSize(u) + v3cPrecision
  {
    UnitSizeIsRight(u);
  }

  lemma GofPiecesSize(g: Gof, v3cPrecision: nat)
    requires WritableGof(g) && v3cPrecision > 0 && |g.vps| < 0x1_0000_0000
    ensures |Flatten(GofPieces(g, v3cPrecision))| ==
            |g.vps| + v3cPrecision + |UnitBytes(g.ad, v3cPrecision)| + |UnitBytes(g.ovd, v3cPrecision)| +
            |UnitBytes(g.gvd, v3cPrecision)| + |UnitBytes(g.avd, v3cPrecision)|
  {
    DivModUnique(|g.vps|, 0x1_0000_0000, 0, |g.vps|);
    FlattenFive(VpsBytes(g.vps, v3cPrecision), UnitBytes(g.ad, v3cPrecision), UnitBytes(g.ovd, v3cPrecision),
                UnitBytes(g.gvd, v3cPrecision), UnitBytes(g.avd, v3cPrecision));
  }

  /** What is announced for a group of frames is what is written for it. */
  lemma GofSizeIsRight(hdrByte: bool, g: Gof, v3cPrecision: nat)
    requires WritableGof(g) && v3cPrecision > 0 && |g.vps| < 0x1_0000_0000
    requires g.ad.header.Ad? && g.ovd.header.Ovd? && g.gvd.header.Gvd? && g.avd.header.Avd?
    requires PtrIsRight(g.ad) && PtrIsRight(g.ovd) && PtrIsRight(g.gvd) && PtrIsRight(g.avd)
    ensures |GofBytes(hdrByte, g, v3cPrecision)| == GofSize(hdrByte, g, v3cPrecision)
  {
    GofPiecesSize(g, v3cPrecision);
    UnitBytesSize(g.ad, v3cPrecision);
    UnitBytesSize(g.ovd, v3cPrecision);
    UnitBytesSize(g.gvd, v3cPrecision);
    UnitBytesSize(g.avd, v3cPrecision);
  }

  // ---------- writers ----------

  /** The buffer starts with what has been written so far. */
  ghost predicate Wrote(buf: array<byte>, out: seq<byte>)
    reads buf
  {
    |out| <= buf.Length && buf[..|out|] == out
  }

  method Copy(buf: array<byte>, ptr: nat, data: seq<byte>, ghost out: seq<byte>) returns (next: nat)
    requires Wrote(buf, out) && ptr == |out| && ptr + |data| <= buf.Length
    modifies buf
    ensures Wrote(buf, out + data) && next == ptr + |data|
  {
    forall i | 0 <= i < |data| {
      buf[ptr + i] := data[i];
    }
    next := ptr + |data|;
  }

  method CopySize(buf: array<byte>, ptr: nat, size: nat, precision: nat, ghost out: seq<byte>) returns (next: nat)
    requires Wrote(buf, out) && ptr == |out| && ptr + precision <= buf.Length && precision <= MAX_V3C_SIZE_PREC
    modifies buf
    ensures Wrote(buf, out + BigEndian(size, precision)) && next == ptr + precision
  {
    var sizeArr := new byte[MAX_V3C_SIZE_PREC](_ => 0);
    ConvertSizeBigEndian(size, sizeArr, precision);
    next := Copy(buf, ptr, sizeArr[..precision], out);
  }

  lemma NalPiecesPrefix(nals: seq<seq<byte>>, precision: nat, n: nat, m: nat)
    requires n <= m <= |nals|
    ensures |Flatten(NalPieces(nals, precision)[..n])| <= |Flatten(NalPieces(nals, precision)[..m])|
  {
    var ps := NalPieces(nals, precision);
    assert ps[..m] == ps[..n] + ps[n..m];
    FlattenConcat(ps[..n], ps[n..m]);
  }

  method WriteNals(buf: array<byte>, ptr: nat, nals: seq<seq<byte>>, precision: nat, ghost out: seq<byte>)
    returns (next: nat)
    requires Wrote(buf, out) && ptr == |out| && precision <= MAX_V3C_SIZE_PREC
    requires ptr + |Flatten(NalPieces(nals, precision))| <= buf.Length
    modifies buf
    ensures Wrote(buf, out + Flatten(NalPieces(nals, precision))) && next == ptr + |Flatten(NalPieces(nals, precision))|
  {
    hide BigEndian;
    next := ptr;
    ghost var ps := NalPieces(nals, precision);
    for i := 0 to |nals|
      invariant Wrote(buf, out + Flatten(ps[..i])) && next == ptr + |Flatten(ps[..i])|
    {
      ghost var done := Flatten(ps[..i]);
      assert ps[..i + 1] == ps[..i] + [ps[i]];
      FlattenSnoc(ps[..i], ps[i]);
      NalPiecesPrefix(nals, precision, i + 1, |nals|);
      assert ps[..|nals|] == ps;
      next := CopySize(buf, next, |nals[i]| % 0x1_0000_0000, precision, out + done);
      next := Copy(buf, next, nals[i], out + done + BigEndian(|nals[i]| % 0x1_0000_0000, precision));
      Associate(out + done, BigEndian(|nals[i]| % 0x1_0000_0000, precision), nals[i]);
      Associate(out, done, ps[i]);
    }
    assert ps[..|nals|] == ps;
  }

  method WriteUnitHeader(buf: array<byte>, ptr: nat, u: Unit, ghost out: seq<byte>) returns (next: nat)
    requires Wrote(buf, out) && ptr == |out| && Writable(u) &&
             ptr + |UnitHead(u)| <= buf.Length
    modifies buf
    ensures Wrote(buf, out + UnitHead(u)) && next == ptr + |UnitHead(u)|
  {
    next := Copy(buf, ptr, HeaderBytes(u.header), out);
    if u.header.Ad? || u.header.Cad? {
      next := Copy(buf, next, [(u.precision - 1) * 32 % 0x100], out + HeaderBytes(u.header));
      Associate(out, HeaderBytes(u.header), [(u.precision - 1) * 32 % 0x100]);
    }
  }

  method CreateV3cUnit(u: Unit, buf: array<byte>, ptr: nat, v3cPrecision: nat, ghost out: seq<byte>) returns (next: nat)
    requires Wrote(buf, out) && ptr == |out| && Writable(u) && v3cPrecision <= MAX_V3C_SIZE_PREC
    requires ptr + |UnitBytes(u, v3cPrecision)| <= buf.Length
    modifies buf
    ensures Wrote(buf, out + UnitBytes(u, v3cPrecision)) && next == ptr + |UnitBytes(u, v3cPrecision)|
  {
    ghost var (size, head, nals) := (BigEndian(UnitSize(u), v3cPrecision), UnitHead(u),
                                     Flatten(NalPieces(u.nals, u.precision)));
    next := CopySize(buf, ptr, UnitSize(u), v3cPrecision, out);
    next := WriteUnitHeader(buf, next, u, out + size);
    next := WriteNals(buf, next, u.nals, u.precision, out + size + head);
    Associate(out + size, head, nals);
    Associate(out, size, head + nals);
  }

  /** The caller has seen to it that the buffer holds the group. */
  method ReconstructV3cGof(hdrByte: bool, buf: array<byte>, ptr: nat, g: Gof, v3cPrecision: nat, ghost out: seq<byte>)
    returns (gofSize: nat, next: nat)
    requires Wrote(buf, out) && ptr == |out| && WritableGof(g) && 0 < v3cPrecision <= MAX_V3C_SIZE_PREC
    requires ptr + |GofBytes(hdrByte, g, v3cPrecision)| <= buf.Length
    modifies buf
    ensures Wrote(buf, out + GofBytes(hdrByte, g, v3cPrecision)) && next == ptr + |GofBytes(hdrByte, g, v3cPrecision)|
    ensures gofSize == GofSize(hdrByte, g, v3cPrecision)
  {
    gofSize := GofSize(hdrByte, g, v3cPrecision);
    next := ptr;
    ghost var o := out;
    if hdrByte {
      next := Copy(buf, next, [SampleStreamHeader(v3cPrecision)], o);
      o := o + [SampleStreamHeader(v3cPrecision)];
    }
    ghost var (v, a, b, c, d) := (VpsBytes(g.vps, v3cPrecision), UnitBytes(g.ad, v3cPrecision),
                                  UnitBytes(g.ovd, v3cPrecision), UnitBytes(g.gvd, v3cPrecision),
                                  UnitBytes(g.avd, v3cPrecision));
    FlattenFive(v, a, b, c, d);
    next := WriteVps(buf, next, g.vps, v3cPrecision, o);
    next := CreateV3cUnit(g.ad, buf, next, v3cPrecision, o + v);
    next := CreateV3cUnit(g.ovd, buf, next, v3cPrecision, o + v + a);
    next := CreateV3cUnit(g.gvd, buf, next, v3cPrecision, o + v + a + b);
    next := CreateV3cUnit(g.avd, buf, next, v3cPrecision, o + v + a + b + c);
    FiveAssociate(o, v, a, b, c, d);
    if hdrByte {
      Associate(out, [SampleStreamHeader(v3cPrecision)], v + a + b + c + d);
    } else {
      assert [] + (v + a + b + c + d) == v + a + b + c + d;
    }
  }

  lemma FiveAssociate(o: seq<byte>, a: seq<byte>, b: seq<byte>, c: seq<byte>, d: seq<byte>, e: seq<byte>)
    ensures o + a + b + c + d + e == o + (a + b + c + d + e)
  {
    Associate(o, a + b + c + d, e);
    Associate(o, a + b + c, d);
    Associate(o, a + b, c);
    Associate(o, a, b);
  }

  method WriteVps(buf: array<byte>, ptr: nat, vps: seq<byte>, v3cPrecision: nat, ghost out: seq<byte>)
    returns (next: nat)
    requires Wrote(buf, out) && ptr == |out| && v3cPrecision <= MAX_V3C_SIZE_PREC
    requires ptr + |VpsBytes(vps, v3cPrecision)| <= buf.Length
    modifies buf
    ensures Wrote(buf, out + VpsBytes(vps, v3cPrecision)) && next == ptr + |VpsBytes(vps, v3cPrecision)|
  {
    var size := |vps| % 0x1_0000_0000;
    next := CopySize(buf, ptr, size, v3cPrecision, out);
    next := Copy(buf, next, vps[..size], out + BigEndian(size, v3cPrecision));
    Associate(out, BigEndian(size, v3cPrecision), vps[..size]);
  }
}
