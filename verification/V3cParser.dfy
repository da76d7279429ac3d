/** mmap_v3c_file of examples/v3c/v3c_util.cc, and why it undoes reconstruct_v3c_gof. */
module V3cParser {
  import opened Bytes
  import opened Wrappers
  import opened V3cFormat

  const DEFAULT_VIDEO_NAL_SIZE_PRECISION := 4

  datatype NalInfo = NalInfo(location: nat, size: nat)

  datatype ParsedUnit = ParsedUnit(precision: nat, header: Header, nals: seq<NalInfo>)

  datatype FileMap = FileMap(vps: seq<ParsedUnit>, ad: seq<ParsedUnit>, ovd: seq<ParsedUnit>, gvd: seq<ParsedUnit>,
                             avd: seq<ParsedUnit>, pvd: seq<ParsedUnit>, cad: seq<ParsedUnit>)

  /** Positions and sizes are of 64 bits. */
  const WRAP := 0x1_0000_0000_0000_0000

  /** What a loop has come to after a number of rounds; Overrun if it would read beyond the file. */
  datatype Outcome<T> = Running | Overrun | Done(value: T)

  // ---------- what the parser computes in a number of rounds ----------

  function Prepend<T>(xs: seq<T>, o: Outcome<seq<T>>): Outcome<seq<T>> {
    if o.Done? then Done(xs + o.value) else o
  }

  function ReadSize(b: seq<byte>, p: nat, precision: nat): nat
    requires p + precision <= |b|
  {
    Number(b[p..p + precision])
  }

  /** Past the size at p, and past what it is the size of. */
  function Hop(b: seq<byte>, p: nat, precision: nat): nat
    requires p + precision <= |b|
  {
    (p + precision + ReadSize(b, p, precision)) % WRAP
  }

  /** A NAL unit may run over the end of its V3C unit; nothing more is read then. */
  function ReadNals(b: seq<byte>, p: nat, end: nat, precision: nat, rounds: nat): Outcome<seq<NalInfo>>
    decreases rounds
  {
    if p >= end then Done([])
    else if p + precision > |b| then Overrun
    else if rounds == 0 then Running
    else
      Prepend([NalInfo(p + precision, ReadSize(b, p, precision))],
              ReadNals(b, Hop(b, p, precision), end, precision, rounds - 1))
  }

  /** The test for a precision octet. */
  predicate OfAtlas(h: Header) {
    h.Ad? || h.Cad?
  }

  /** Where the NAL units of a unit start whose header is at q. */
  function NalStart(h: Header, q: nat): nat {
    (q + V3C_HDR_LEN + (if OfAtlas(h) then SAMPLE_STREAM_HDR_LEN else 0)) % WRAP
  }

  function ReadHeader(b: seq<byte>, p: nat, v3cPrecision: nat): Option<Header> {
    var q := p + v3cPrecision;
    if q >= |b| || q + Span(b[q] / 8) > |b| then None else Some(ParseHeader(b, q))
  }

  function ReadPrecision(b: seq<byte>, q: nat, h: Header): (r: nat)
    requires OfAtlas(h) ==> q + V3C_HDR_LEN < |b|
    ensures 0 < r <= MAX_V3C_SIZE_PREC
  {
    if OfAtlas(h) then b[q + V3C_HDR_LEN] / 32 + 1 else DEFAULT_VIDEO_NAL_SIZE_PRECISION
  }

  function ReadUnit(b: seq<byte>, p: nat, v3cPrecision: nat, rounds: nat): Outcome<ParsedUnit>
    requires p + v3cPrecision <= |b|
  {
    var (size, q) := (ReadSize(b, p, v3cPrecision), p + v3cPrecision);
    match ReadHeader(b, p, v3cPrecision)
    case None => Overrun
    case Some(h) =>
      if h.Vps? then Done(ParsedUnit(0, h, [NalInfo(q, size)]))
      else
        var precision := ReadPrecision(b, q, h);
        match ReadNals(b, NalStart(h, q), (q + size) % WRAP, precision, rounds)
        case Running => Running
        case Overrun => Overrun
        case Done(nals) => Done(ParsedUnit(precision, h, nals))
  }

  function ReadUnits(b: seq<byte>, p: nat, v3cPrecision: nat, nalRounds: nat, rounds: nat): Outcome<seq<ParsedUnit>>
    decreases rounds
  {
    if p >= |b| then Done([])
    else if p + v3cPrecision > |b| then Overrun
    else if rounds == 0 then Running
    else
      match ReadUnit(b, p, v3cPrecision, nalRounds)
      case Running => Running
      case Overrun => Overrun
      case Done(u) => Prepend([u], ReadUnits(b, Hop(b, p, v3cPrecision), v3cPrecision, nalRounds, rounds - 1))
  }

  /** The units of one type, in the order of the file. */
  function Select(us: seq<ParsedUnit>, kind: byte): seq<ParsedUnit> {
    if us == [] then []
    else
      var last := us[|us| - 1];
      Select(us[..|us| - 1], kind) + (if TypeOf(last.header) == kind then [last] else [])
  }

  function Sorted(us: seq<ParsedUnit>): FileMap {
    FileMap(Select(us, 0), Select(us, 1), Select(us, 2), Select(us, 3), Select(us, 4), Select(us, 5), Select(us, 6))
  }

  /** What is known of a file once no loop has gone round more often than given. */
  function ReadFile(b: seq<byte>, rounds: nat): Outcome<FileMap> {
    if b == [] then Overrun
    else
      match ReadUnits(b, 1, b[0] / 32 + 1, rounds, rounds)
      case Running => Running
      case Overrun => Overrun
      case Done(us) => Done(Sorted(us))
  }

  // ---------- the parser ----------

  lemma PrependNothing<T>(o: Outcome<seq<T>>)
    ensures Prepend([], o) == o
  {
    if o.Done? {
      assert [] + o.value == o.value;
    }
  }

  lemma PrependBoth<T>(xs: seq<T>, ys: seq<T>, o: Outcome<seq<T>>)
    ensures Prepend(xs, Prepend(ys, o)) == Prepend(xs + ys, o)
  {
    if o.Done? {
      assert xs + (ys + o.value) == xs + ys + o.value;
    }
  }

  method ReadNalStream(b: seq<byte>, start: nat, end: nat, precision: nat, rounds: nat)
    returns (r: Outcome<seq<NalInfo>>)
    requires 0 < precision <= MAX_V3C_SIZE_PREC
    ensures r == ReadNals(b, start, end, precision, rounds)
  {
    hide Number;
    var ptr: nat, left: nat, nals := start, rounds, [];
    ghost var all := ReadNals(b, start, end, precision, rounds);
    PrependNothing(all);
    while ptr < end
      invariant all == Prepend(nals, ReadNals(b, ptr, end, precision, left))
      decreases left
    {
      if ptr + precision > |b| {
        return Overrun;
      }
      if left == 0 {
        return Running;
      }
      var size := CombineBytes(b[ptr..ptr + precision]);
      var info := NalInfo(ptr + precision, size);
      PrependBoth(nals, [info], ReadNals(b, Hop(b, ptr, precision), end, precision, left - 1));
      nals := nals + [info];
      ptr := (ptr + precision + size) % WRAP;
      left := left - 1;
    }
    assert nals + [] == nals;
    return Done(nals);
  }

  /** The body of the inner part of mmap_v3c_file: one unit. */
  method ReadOne(b: seq<byte>, ptr: nat, size: nat, v3cPrecision: nat, rounds: nat) returns (r: Outcome<ParsedUnit>)
    requires ptr + v3cPrecision <= |b| && size == ReadSize(b, ptr, v3cPrecision)
    ensures r == ReadUnit(b, ptr, v3cPrecision, rounds)
    ensures r.Done? && r.value.header.Unknown? ==> r.value.header.kind > 6
  {
    hide Number;
    var q := ptr + v3cPrecision;
    if q >= |b| || q + Span(b[q] / 8) > |b| {
      return Overrun;
    }
    var header := ParseHeader(b, q);
    if header.Vps? {
      return Done(ParsedUnit(0, header, [NalInfo(q, size)]));
    }
    var v3cPtr := q + V3C_HDR_LEN;
    var precision := DEFAULT_VIDEO_NAL_SIZE_PRECISION;
    if OfAtlas(header) {
      precision := b[v3cPtr] / 32 + 1;
      v3cPtr := v3cPtr + 1;
    }
    var nals := ReadNalStream(b, v3cPtr % WRAP, (q + size) % WRAP, precision, rounds);
    match nals
    case Running => return Running;
    case Overrun => return Overrun;
    case Done(infos) => return Done(ParsedUnit(precision, header, infos));
  }

  /** Units of unknown types are dropped. */
  function Push(m: FileMap, u: ParsedUnit): FileMap {
    match u.header
    case Vps => m.(vps := m.vps + [u])
    case Ad(_, _) => m.(ad := m.ad + [u])
    case Ovd(_, _) => m.(ovd := m.ovd + [u])
    case Gvd(_, _, _, _) => m.(gvd := m.gvd + [u])
    case Avd(_, _, _, _, _, _) => m.(avd := m.avd + [u])
    case Pvd(_, _) => m.(pvd := m.pvd + [u])
    case Cad(_) => m.(cad := m.cad + [u])
    case Unknown(_) => m
  }

  lemma SelectSnoc(us: seq<ParsedUnit>, u: ParsedUnit)
    requires u.header.Unknown? ==> u.header.kind > 6
    ensures Push(Sorted(us), u) == Sorted(us + [u])
  {
    assert (us + [u])[..|us|] == us;
  }

  /** The units with headers of one kind, in order. */
  function Of(us: seq<ParsedUnit>, kind: Header -> bool): seq<ParsedUnit> {
    if us == [] then []
    else
      var last := us[|us| - 1];
      if kind(last.header) then Of(us[..|us| - 1], kind) + [last] else Of(us[..|us| - 1], kind)
  }

  /** Every unit is in the list of its type, and in no other; units of unknown types are in none. */
  lemma {:induction false} ListsAreByType(us: seq<ParsedUnit>)
    requires forall i :: 0 <= i < |us| && us[i].header.Unknown? ==> us[i].header.kind > 6
    ensures Sorted(us) == FileMap(Of(us, (h: Header) => h.Vps?), Of(us, (h: Header) => h.Ad?),
                                  Of(us, (h: Header) => h.Ovd?), Of(us, (h: Header) => h.Gvd?),
                                  Of(us, (h: Header) => h.Avd?), Of(us, (h: Header) => h.Pvd?),
                                  Of(us, (h: Header) => h.Cad?))
  {
    if us != [] {
      ListsAreByType(us[..|us| - 1]);
    }
  }

  /** The loops of the source have no bound on their rounds. */
  method MmapV3cFile(b: seq<byte>, rounds: nat) returns (r: Outcome<FileMap>)
    ensures r == ReadFile(b, rounds)
  {
    hide Number, ReadUnit, Sorted;
    if b == [] {
      return Overrun;
    }
    var v3cPrecision: nat := b[0] / 32 + 1;
    var ptr: nat, left: nat, m := 1, rounds, FileMap([], [], [], [], [], [], []);
    ghost var units: seq<ParsedUnit> := [];
    NothingSorted();
    ghost var all := ReadUnits(b, 1, v3cPrecision, rounds, rounds);
    PrependNothing(all);
    while ptr < |b|
      invariant all == Prepend(units, ReadUnits(b, ptr, v3cPrecision, rounds, left))
      invariant m == Sorted(units)
      decreases left
    {
      if ptr + v3cPrecision > |b| {
        return Overrun;
      }
      if left == 0 {
        return Running;
      }
      var size := CombineBytes(b[ptr..ptr + v3cPrecision]);
      var u := ReadOne(b, ptr, size, v3cPrecision, rounds);
      match u
      case Running => return Running;
      case Overrun => return Overrun;
      case Done(unit) =>
        PrependBoth(units, [unit], ReadUnits(b, Hop(b, ptr, v3cPrecision), v3cPrecision, rounds, left - 1));
        SelectSnoc(units, unit);
        m := Push(m, unit);
        units := units + [unit];
        ptr := (ptr + v3cPrecision + size) % WRAP;
        left := left - 1;
    }
    assert units + [] == units;
    r := Done(m);
  }

  lemma NothingSorted()
    ensures Sorted([]) == FileMap([], [], [], [], [], [], [])
  {}

  // ---------- parsing what was written ----------

  predicate FitsNal(nal: seq<byte>, precision: nat) {
    |nal| < Pow2(8 * precision) && |nal| < 0x1_0000_0000
  }

  /** Sizes fit the octets they are given, and video units use the precision the parser assumes. */
  predicate Fits(u: Unit, v3cPrecision: nat) {
    && HasFields(u.header) && 0 < u.precision <= MAX_V3C_SIZE_PREC
    && (!u.header.Ad? && !u.header.Cad? ==> u.precision == DEFAULT_VIDEO_NAL_SIZE_PRECISION)
    && |PayloadBytes(u)| < Pow2(8 * v3cPrecision)
    && forall i :: 0 <= i < |u.nals| ==> FitsNal(u.nals[i], u.precision)
  }

  /** A parameter set starts with the octet of its own unit header. */
  predicate FitsVps(vps: seq<byte>, v3cPrecision: nat) {
    0 < |vps| < 0x1_0000_0000 && |vps| < Pow2(8 * v3cPrecision) && vps[0] / 8 == 0
  }

  /** The locations are those of the NAL units given. */
  predicate Carries(b: seq<byte>, infos: seq<NalInfo>, nals: seq<seq<byte>>) {
    |infos| == |nals| && forall i :: 0 <= i < |nals| ==> infos[i].size == |nals[i]| && At(b, infos[i].location, nals[i])
  }

  lemma CarriesCons(b: seq<byte>, info: NalInfo, infos: seq<NalInfo>, nals: seq<seq<byte>>)
    requires nals != [] && info.size == |nals[0]| && At(b, info.location, nals[0]) && Carries(b, infos, nals[1..])
    ensures Carries(b, [info] + infos, nals)
  {
    assert forall i :: 0 < i < |nals| ==> nals[i] == nals[1..][i - 1] && ([info] + infos)[i] == infos[i - 1];
  }

  lemma ReadsSize(b: seq<byte>, p: nat, x: nat, precision: nat)
    requires At(b, p, BigEndian(x, precision)) && x < Pow2(8 * precision)
    ensures ReadSize(b, p, precision) == x
  {
    SizeFits(x, precision);
  }

  lemma ReadsNal(b: seq<byte>, p: nat, nal: seq<byte>, precision: nat)
    requires At(b, p, NalBytes(nal, precision)) && FitsNal(nal, precision)
    ensures p + precision <= |b| && ReadSize(b, p, precision) == |nal| && At(b, p + precision, nal)
  {
    DivModUnique(|nal|, 0x1_0000_0000, 0, |nal|);
    AtSplit(b, p, BigEndian(|nal|, precision), nal);
    ReadsSize(b, p, |nal|, precision);
  }

  /** A NAL unit of the stream can be read at p. */
  predicate NalAt(b: seq<byte>, p: nat, nal: seq<byte>, precision: nat) {
    p + precision <= |b| && ReadSize(b, p, precision) == |nal| && At(b, p + precision, nal)
  }

  predicate NalsAt(b: seq<byte>, p: nat, nals: seq<seq<byte>>, precision: nat)
    decreases |nals|
  {
    nals == [] || (NalAt(b, p, nals[0], precision) && NalsAt(b, p + precision + |nals[0]|, nals[1..], precision))
  }

  function NalsLength(nals: seq<seq<byte>>, precision: nat): nat {
    if nals == [] then 0 else precision + |nals[0]| + NalsLength(nals[1..], precision)
  }

  lemma HopsInside(b: seq<byte>, p: nat, precision: nat, size: nat)
    requires |b| < WRAP && p + precision + size <= |b| && ReadSize(b, p, precision) == size
    ensures Hop(b, p, precision) == p + precision + size
  {}

  lemma {:induction false} ReadsAlong(b: seq<byte>, p: nat, nals: seq<seq<byte>>, precision: nat, rounds: nat)
    requires precision > 0 && NalsAt(b, p, nals, precision) && p <= |b| < WRAP && rounds >= |b| - p
    ensures var r := ReadNals(b, p, p + NalsLength(nals, precision), precision, rounds);
            r.Done? && Carries(b, r.value, nals)
    decreases |nals|
  {
    hide Carries, Number;
    if nals == [] {
      NothingCarried(b);
    } else {
      var end := p + NalsLength(nals, precision);
      var next := p + precision + |nals[0]|;
      HopsInside(b, p, precision, |nals[0]|);
      ReadsAlong(b, next, nals[1..], precision, rounds - 1);
      CarriesCons(b, NalInfo(p + precision, |nals[0]|), ReadNals(b, next, end, precision, rounds - 1).value, nals);
    }
  }

  lemma NothingCarried(b: seq<byte>)
    ensures Carries(b, [], [])
  {}

  lemma PiecesTail(nals: seq<seq<byte>>, precision: nat)
    requires nals != []
    ensures NalPieces(nals, precision)[1..] == NalPieces(nals[1..], precision)
  {}

  lemma {:induction false} PiecesStand(b: seq<byte>, p: nat, nals: seq<seq<byte>>, precision: nat)
    requires At(b, p, Flatten(NalPieces(nals, precision)))
    requires forall i :: 0 <= i < |nals| ==> FitsNal(nals[i], precision)
    ensures NalsAt(b, p, nals, precision) && NalsLength(nals, precision) == |Flatten(NalPieces(nals, precision))|
    decreases |nals|
  {
    hide Number, Pow2, FitsNal, BigEndian;
    if nals != [] {
      FlattenSplit(b, p, NalPieces(nals, precision));
      PiecesTail(nals, precision);
      ReadsNal(b, p, nals[0], precision);
      PiecesStand(b, p + precision + |nals[0]|, nals[1..], precision);
    }
  }

  lemma ReadsNals(b: seq<byte>, p: nat, nals: seq<seq<byte>>, precision: nat, rounds: nat)
    requires precision > 0 && At(b, p, Flatten(NalPieces(nals, precision))) && |b| < WRAP && rounds >= |b|
    requires forall i :: 0 <= i < |nals| ==> FitsNal(nals[i], precision)
    ensures var r := ReadNals(b, p, p + |Flatten(NalPieces(nals, precision))|, precision, rounds);
            r.Done? && Carries(b, r.value, nals)
  {
    hide Number, BigEndian, Pow2, FitsNal;
    PiecesStand(b, p, nals, precision);
    ReadsAlong(b, p, nals, precision, rounds);
  }

  /** What a file holds, one entry a unit; of any type, also those that are not received. */
  datatype Item = Params(vps: seq<byte>) | Data(u: Unit)

  predicate FitsItem(item: Item, v3cPrecision: nat) {
    match item
    case Params(vps) => FitsVps(vps, v3cPrecision)
    case Data(u) => Fits(u, v3cPrecision)
  }

  function ItemBytes(item: Item, v3cPrecision: nat): seq<byte>
    requires FitsItem(item, v3cPrecision)
  {
    match item
    case Params(vps) => VpsBytes(vps, v3cPrecision)
    case Data(u) => BigEndian(|PayloadBytes(u)|, v3cPrecision) + PayloadBytes(u)
  }

  /** The parsed unit stands for the item: same type, fields and precision, and NAL units with
      the same octets. */
  predicate Recovers(b: seq<byte>, u: ParsedUnit, item: Item) {
    match item
    case Params(vps) => u.header.Vps? && Carries(b, u.nals, [vps])
    case Data(v) => u.header == Carried(v.header) && u.precision == v.precision && Carries(b, u.nals, v.nals)
  }

  lemma ReadsParams(b: seq<byte>, p: nat, vps: seq<byte>, v: nat, rounds: nat)
    requires v > 0 && FitsVps(vps, v) && At(b, p, VpsBytes(vps, v))
    ensures p + v <= |b| && ReadSize(b, p, v) == |vps|
    ensures var u := ReadUnit(b, p, v, rounds);
            u.Done? && Recovers(b, u.value, Params(vps))
  {
    DivModUnique(|vps|, 0x1_0000_0000, 0, |vps|);
    assert vps[..|vps|] == vps;
    AtSplit(b, p, BigEndian(|vps|, v), vps);
    ReadsSize(b, p, |vps|, v);
    assert b[p + v] == b[p + v..p + v + |vps|][0] == vps[0];
  }

  lemma ReadsHead(b: seq<byte>, q: nat, u: Unit)
    requires HasFields(u.header) && 0 < u.precision <= MAX_V3C_SIZE_PREC && At(b, q, UnitHead(u))
    ensures q < |b| && q + Span(b[q] / 8) <= |b| && ParseHeader(b, q) == Carried(u.header)
    ensures OfAtlas(u.header) ==> q + V3C_HDR_LEN < |b| && b[q + V3C_HDR_LEN] / 32 + 1 == u.precision
  {
    var h := u.header;
    if OfAtlas(h) {
      AtSplit(b, q, HeaderBytes(h), [(u.precision - 1) * 32 % 0x100]);
      assert b[q + 4] == b[q + 4..q + 4 + 1][0] == (u.precision - 1) * 32;
    } else {
      assert UnitHead(u) == HeaderBytes(h);
    }
    HeaderRoundTrip(h, b, q);
  }

  /** A unit is read from its parts. */
  lemma FromParts(b: seq<byte>, p: nat, v: nat, size: nat, h: Header, precision: nat, rounds: nat)
    requires p + v <= |b| && ReadSize(b, p, v) == size && ReadHeader(b, p, v) == Some(h) && !h.Vps? && precision > 0
    requires OfAtlas(h) ==> p + v + V3C_HDR_LEN < |b|
    requires ReadPrecision(b, p + v, h) == precision
    ensures ReadUnit(b, p, v, rounds) ==
            match ReadNals(b, NalStart(h, p + v), (p + v + size) % WRAP, precision, rounds)
            case Running => Running
            case Overrun => Overrun
            case Done(nals) => Done(ParsedUnit(precision, h, nals))
  {}

  lemma SizeThenRest(b: seq<byte>, p: nat, size: nat, v: nat, rest: seq<byte>)
    requires At(b, p, BigEndian(size, v) + rest) && size < Pow2(8 * v)
    ensures p + v <= |b| && ReadSize(b, p, v) == size && At(b, p + v, rest)
  {
    AtSplit(b, p, BigEndian(size, v), rest);
    ReadsSize(b, p, size, v);
  }

  lemma CarriedType(h: Header)
    ensures TypeOf(Carried(h)) == TypeOf(h) && (OfAtlas(Carried(h)) <==> OfAtlas(h)) && (Carried(h).Vps? <==> h.Vps?)
    ensures (Carried(h).Ad? <==> h.Ad?) && (Carried(h).Cad? <==> h.Cad?)
  {}

  lemma PayloadSplit(b: seq<byte>, q: nat, u: Unit)
    requires HasFields(u.header) && u.precision > 0 && At(b, q, PayloadBytes(u)) && |b| < WRAP
    ensures var nals := Flatten(NalPieces(u.nals, u.precision));
            At(b, q, UnitHead(u)) && At(b, NalStart(u.header, q), nals) &&
            q + |PayloadBytes(u)| == NalStart(u.header, q) + |nals|
  {
    hide UnitHead, Flatten, NalPieces;
    AtSplit(b, q, UnitHead(u), Flatten(NalPieces(u.nals, u.precision)));
  }

  lemma PayloadRead(b: seq<byte>, q: nat, u: Unit, rounds: nat)
    requires |b| < WRAP && rounds >= |b|
    requires HasFields(u.header) && 0 < u.precision <= MAX_V3C_SIZE_PREC && At(b, q, PayloadBytes(u))
    requires forall i :: 0 <= i < |u.nals| ==> FitsNal(u.nals[i], u.precision)
    requires !u.header.Ad? && !u.header.Cad? ==> u.precision == DEFAULT_VIDEO_NAL_SIZE_PRECISION
    ensures q < |b| && q + Span(b[q] / 8) <= |b| && ParseHeader(b, q) == Carried(u.header)
    ensures OfAtlas(u.header) ==> q + V3C_HDR_LEN < |b|
    ensures ReadPrecision(b, q, Carried(u.header)) == u.precision
    ensures var r := ReadNals(b, NalStart(u.header, q), q + |PayloadBytes(u)|, u.precision, rounds);
            r.Done? && Carries(b, r.value, u.nals)
  {
    hide HeaderBytes, Carried, ParseHeader, Pow2, Flatten, NalPieces, PayloadBytes, UnitHead, ReadNals, Carries,
      FitsNal;
    CarriedType(u.header);
    PayloadSplit(b, q, u);
    ReadsHead(b, q, u);
    ReadsNals(b, NalStart(u.header, q), u.nals, u.precision, rounds);
  }

  lemma ReadsData(b: seq<byte>, p: nat, u: Unit, v: nat, rounds: nat)
    requires v > 0 && Fits(u, v) && At(b, p, ItemBytes(Data(u), v)) && |b| < WRAP && rounds >= |b|
    ensures p + v <= |b| && v + ReadSize(b, p, v) == |ItemBytes(Data(u), v)|
    ensures var r := ReadUnit(b, p, v, rounds);
            r.Done? && Recovers(b, r.value, Data(u))
  {
    hide HeaderBytes, Carried, ParseHeader, Pow2, BigEndian, Flatten, NalPieces, FitsNal, PayloadBytes, Carries,
      Number, Sizes, ReadNals, Span, ReadUnit, ReadPrecision, ReadSize;
    CarriedType(u.header);
    var size := |PayloadBytes(u)|;
    SizeThenRest(b, p, size, v, PayloadBytes(u));
    PayloadRead(b, p + v, u, rounds);
    FromParts(b, p, v, size, Carried(u.header), u.precision, rounds);
  }

  /** A unit of the given length can be read at p, and recovers the item. */
  predicate ItemAt(b: seq<byte>, p: nat, v: nat, rounds: nat, length: nat, item: Item) {
    p + v <= |b| && p + length <= |b| && v + ReadSize(b, p, v) == length &&
    var r := ReadUnit(b, p, v, rounds);
    r.Done? && Recovers(b, r.value, item)
  }

  lemma ReadsItem(b: seq<byte>, p: nat, item: Item, v: nat, rounds: nat)
    requires v > 0 && FitsItem(item, v) && At(b, p, ItemBytes(item, v)) && |b| < WRAP && rounds >= |b|
    ensures ItemAt(b, p, v, rounds, |ItemBytes(item, v)|, item)
  {
    match item
    case Params(vps) => ReadsParams(b, p, vps, v, rounds);
    case Data(u) => ReadsData(b, p, u, v, rounds);
  }

  predicate AllFit(items: seq<Item>, v: nat) {
    forall i :: 0 <= i < |items| ==> FitsItem(items[i], v)
  }

  function ItemPieces(items: seq<Item>, v: nat): (ps: seq<seq<byte>>)
    requires AllFit(items, v)
    ensures |ps| == |items|
  {
    seq(|items|, i requires 0 <= i < |items| => ItemBytes(items[i], v))
  }

  predicate RecoversAll(b: seq<byte>, us: seq<ParsedUnit>, items: seq<Item>) {
    |us| == |items| && forall i :: 0 <= i < |items| ==> Recovers(b, us[i], items[i])
  }

  lemma RecoversCons(b: seq<byte>, u: ParsedUnit, us: seq<ParsedUnit>, items: seq<Item>)
    requires items != [] && Recovers(b, u, items[0]) && RecoversAll(b, us, items[1..])
    ensures RecoversAll(b, [u] + us, items)
  {
    assert forall i :: 0 < i < |items| ==> items[i] == items[1..][i - 1] && ([u] + us)[i] == us[i - 1];
  }

  predicate ItemsAt(b: seq<byte>, p: nat, v: nat, rounds: nat, lengths: seq<nat>, items: seq<Item>)
    requires |lengths| == |items|
    decreases |items|
  {
    if items == [] then p == |b|
    else
      lengths[0] > 0 && ItemAt(b, p, v, rounds, lengths[0], items[0]) &&
      ItemsAt(b, p + lengths[0], v, rounds, lengths[1..], items[1..])
  }

  lemma {:induction false} UnitsAlong(b: seq<byte>, p: nat, v: nat, nalRounds: nat, rounds: nat, lengths: seq<nat>,
                                      items: seq<Item>)
    requires v > 0 && |lengths| == |items| && ItemsAt(b, p, v, nalRounds, lengths, items)
    requires p <= |b| < WRAP && rounds >= |b| - p
    ensures var r := ReadUnits(b, p, v, nalRounds, rounds);
            r.Done? && RecoversAll(b, r.value, items)
    decreases |items|
  {
    hide Recovers, ReadUnit, ReadSize;
    if items != [] {
      var next := p + lengths[0];
      HopsInside(b, p, v, lengths[0] - v);
      UnitsAlong(b, next, v, nalRounds, rounds - 1, lengths[1..], items[1..]);
      RecoversCons(b, ReadUnit(b, p, v, nalRounds).value, ReadUnits(b, next, v, nalRounds, rounds - 1).value, items);
    }
  }

  function Lengths(pieces: seq<seq<byte>>): (r: seq<nat>)
    ensures |r| == |pieces|
  {
    seq(|pieces|, i requires 0 <= i < |pieces| => |pieces[i]|)
  }

  /** Wherever the octets w stand, a unit can be read that recovers the item. */
  ghost predicate StandsFor(b: seq<byte>, w: seq<byte>, item: Item, v: nat, rounds: nat) {
    |w| > 0 && forall q: nat | At(b, q, w) :: ItemAt(b, q, v, rounds, |w|, item)
  }

  lemma {:induction false} PiecesRead(b: seq<byte>, p: nat, pieces: seq<seq<byte>>, items: seq<Item>, v: nat,
                                      rounds: nat)
    requires |pieces| == |items| && forall i :: 0 <= i < |items| ==> StandsFor(b, pieces[i], items[i], v, rounds)
    requires At(b, p, Flatten(pieces)) && p + |Flatten(pieces)| == |b|
    ensures ItemsAt(b, p, v, rounds, Lengths(pieces), items)
    decreases |items|
  {
    hide ItemAt;
    if items != [] {
      FlattenSplit(b, p, pieces);
      assert StandsFor(b, pieces[0], items[0], v, rounds);
      assert Lengths(pieces)[1..] == Lengths(pieces[1..]);
      PiecesRead(b, p + |pieces[0]|, pieces[1..], items[1..], v, rounds);
    }
  }

  lemma ItemStands(b: seq<byte>, item: Item, v: nat, rounds: nat)
    requires v > 0 && FitsItem(item, v) && |b| < WRAP && rounds >= |b|
    ensures StandsFor(b, ItemBytes(item, v), item, v, rounds)
  {
    hide ItemAt, FitsItem;
    assert |ItemBytes(item, v)| >= v;
    forall q: nat | At(b, q, ItemBytes(item, v))
      ensures ItemAt(b, q, v, rounds, |ItemBytes(item, v)|, item)
    {
      ReadsItem(b, q, item, v, rounds);
    }
  }

  /** The parser finds exactly the units written, up to the end of the file. */
  lemma ReadsItems(b: seq<byte>, p: nat, items: seq<Item>, v: nat, rounds: nat)
    requires v > 0 && AllFit(items, v) && At(b, p, Flatten(ItemPieces(items, v)))
    requires p + |Flatten(ItemPieces(items, v))| == |b| && |b| < WRAP && rounds >= |b|
    ensures var r := ReadUnits(b, p, v, rounds, rounds);
            r.Done? && RecoversAll(b, r.value, items)
  {
    hide StandsFor, FitsItem;
    var ps := ItemPieces(items, v);
    forall i | 0 <= i < |items|
      ensures StandsFor(b, ps[i], items[i], v, rounds)
    {
      ItemStands(b, items[i], v, rounds);
    }
    PiecesRead(b, p, ps, items, v, rounds);
    UnitsAlong(b, p, v, rounds, rounds, Lengths(ps), items);
  }

  // ---------- whole files ----------

  /** A unit as it is received, with ptr kept right. */
  predicate Written(u: Unit, v: nat) {
    Received(u.header) && PtrIsRight(u) && Fits(u, v)
  }

  /** Then the size announced for it is the one in the file. */
  lemma WrittenBytes(u: Unit, v: nat)
    requires Written(u, v)
    ensures UnitBytes(u, v) == ItemBytes(Data(u), v)
  {
    hide BigEndian, PayloadBytes;
    UnitSizeIsRight(u);
  }

  predicate FitsGof(g: Gof, v: nat) {
    && FitsVps(g.vps, v) && Written(g.ad, v) && Written(g.ovd, v) && Written(g.gvd, v) && Written(g.avd, v)
    && g.ad.header.Ad? && g.ovd.header.Ovd? && g.gvd.header.Gvd? && g.avd.header.Avd?
  }

  predicate AllGofsFit(gofs: seq<Gof>, v: nat) {
    forall i :: 0 <= i < |gofs| ==> FitsGof(gofs[i], v)
  }

  function ItemsOf(g: Gof): (items: seq<Item>)
    ensures |items| == 5
  {
    [Params(g.vps), Data(g.ad), Data(g.ovd), Data(g.gvd), Data(g.avd)]
  }

  function StreamOf(gofs: seq<Gof>): seq<Item> {
    if gofs == [] then [] else StreamOf(gofs[..|gofs| - 1]) + ItemsOf(gofs[|gofs| - 1])
  }

  /** What reconstruct_v3c_gof writes for one group after the other, the first with the octet
      that heads the sample stream. */
  function FileBytes(gofs: seq<Gof>, v: nat): seq<byte>
    requires gofs != [] && v > 0 && AllGofsFit(gofs, v)
  {
    if |gofs| == 1 then GofBytes(true, gofs[0], v)
    else FileBytes(gofs[..|gofs| - 1], v) + GofBytes(false, gofs[|gofs| - 1], v)
  }

  lemma {:induction false} StreamFits(gofs: seq<Gof>, v: nat)
    requires AllGofsFit(gofs, v)
    ensures AllFit(StreamOf(gofs), v)
  {
    hide FitsVps, Fits;
    if gofs != [] {
      var (init, last) := (gofs[..|gofs| - 1], gofs[|gofs| - 1]);
      StreamFits(init, v);
      var items := ItemsOf(last);
      assert FitsGof(last, v);
      assert forall i :: 0 <= i < 5 ==> FitsItem(items[i], v);
    }
  }

  lemma PiecesOfGof(g: Gof, v: nat)
    requires FitsGof(g, v)
    ensures WritableGof(g) && AllFit(ItemsOf(g), v) && GofPieces(g, v) == ItemPieces(ItemsOf(g), v)
  {
    hide FitsVps, VpsBytes, UnitBytes, PayloadBytes, BigEndian;
    var items := ItemsOf(g);
    WrittenBytes(g.ad, v);
    WrittenBytes(g.ovd, v);
    WrittenBytes(g.gvd, v);
    WrittenBytes(g.avd, v);
    assert forall i :: 0 <= i < 5 ==> FitsItem(items[i], v);
  }

  lemma PiecesConcat(a: seq<Item>, b: seq<Item>, v: nat)
    requires AllFit(a, v) && AllFit(b, v) && AllFit(a + b, v)
    ensures ItemPieces(a + b, v) == ItemPieces(a, v) + ItemPieces(b, v)
  {
    hide ItemBytes, FitsItem;
  }

  lemma {:induction false} FileIsStream(gofs: seq<Gof>, v: nat)
    requires gofs != [] && v > 0 && AllGofsFit(gofs, v)
    ensures AllFit(StreamOf(gofs), v)
    ensures FileBytes(gofs, v) == [SampleStreamHeader(v)] + Flatten(ItemPieces(StreamOf(gofs), v))
  {
    hide FitsGof, ItemPieces, Flatten, GofPieces, AllFit;
    StreamFits(gofs, v);
    var (init, last) := (gofs[..|gofs| - 1], gofs[|gofs| - 1]);
    assert FitsGof(last, v);
    PiecesOfGof(last, v);
    StreamFits(init, v);
    var w := Flatten(GofPieces(last, v));
    if |gofs| == 1 {
      assert StreamOf(init) == [];
      assert StreamOf(gofs) == ItemsOf(last);
    } else {
      FileIsStream(init, v);
      PiecesConcat(StreamOf(init), ItemsOf(last), v);
      FlattenConcat(ItemPieces(StreamOf(init), v), GofPieces(last, v));
      Associate([SampleStreamHeader(v)], Flatten(ItemPieces(StreamOf(init), v)), w);
      assert GofBytes(false, last, v) == w;
    }
  }

  /** Every list of the map has one unit for each group, which recovers what was written for it. */
  predicate RecoversMap(b: seq<byte>, m: FileMap, gofs: seq<Gof>) {
    && |m.vps| == |m.ad| == |m.ovd| == |m.gvd| == |m.avd| == |gofs| && m.pvd == [] && m.cad == []
    && forall i :: 0 <= i < |gofs| ==> RecoversGof(b, m.vps[i], m.ad[i], m.ovd[i], m.gvd[i], m.avd[i], gofs[i])
  }

  predicate RecoversGof(b: seq<byte>, vps: ParsedUnit, ad: ParsedUnit, ovd: ParsedUnit, gvd: ParsedUnit,
    avd: ParsedUnit, g: Gof)
  {
    Recovers(b, vps, Params(g.vps)) && Recovers(b, ad, Data(g.ad)) && Recovers(b, ovd, Data(g.ovd)) &&
    Recovers(b, gvd, Data(g.gvd)) && Recovers(b, avd, Data(g.avd))
  }

  lemma {:induction false} SelectConcat(a: seq<ParsedUnit>, b: seq<ParsedUnit>, kind: byte)
    ensures Select(a + b, kind) == Select(a, kind) + Select(b, kind)
  {
    if b == [] {
      assert a + b == a;
    } else {
      assert (a + b)[..|a + b| - 1] == a + b[..|b| - 1];
      SelectConcat(a, b[..|b| - 1], kind);
    }
  }

  lemma SelectFive(us: seq<ParsedUnit>, kind: byte)
    requires |us| == 5
    ensures Select(us, kind) == Picked(us[0], kind) + Picked(us[1], kind) + Picked(us[2], kind) +
                                Picked(us[3], kind) + Picked(us[4], kind)
  {
    var (a, b, c, d) := ([us[0]], [us[0], us[1]], [us[0], us[1], us[2]], [us[0], us[1], us[2], us[3]]);
    assert us[..4] == d && d[..3] == c && c[..2] == b && b[..1] == a && a[..0] == [];
    assert Select(a, kind) == Picked(us[0], kind);
    assert Select(b, kind) == Select(a, kind) + Picked(us[1], kind);
    assert Select(c, kind) == Select(b, kind) + Picked(us[2], kind);
    assert Select(d, kind) == Select(c, kind) + Picked(us[3], kind);
    assert Select(us, kind) == Select(d, kind) + Picked(us[4], kind);
  }

  function Picked(u: ParsedUnit, kind: byte): seq<ParsedUnit> {
    if TypeOf(u.header) == kind then [u] else []
  }

  lemma RecoveredType(b: seq<byte>, u: ParsedUnit, item: Item)
    requires Recovers(b, u, item)
    ensures TypeOf(u.header) == match item case Params(_) => 0 case Data(v) => TypeOf(v.header)
  {
    hide Carries;
    if item.Data? {
      CarriedType(item.u.header);
    }
  }

  lemma FiveTypes(b: seq<byte>, us: seq<ParsedUnit>, g: Gof)
    requires |us| == 5 && RecoversGof(b, us[0], us[1], us[2], us[3], us[4], g)
    requires g.ad.header.Ad? && g.ovd.header.Ovd? && g.gvd.header.Gvd? && g.avd.header.Avd?
    ensures forall i :: 0 <= i < 5 ==> TypeOf(us[i].header) == i
  {
    hide Recovers;
    RecoveredType(b, us[0], Params(g.vps));
    RecoveredType(b, us[1], Data(g.ad));
    RecoveredType(b, us[2], Data(g.ovd));
    RecoveredType(b, us[3], Data(g.gvd));
    RecoveredType(b, us[4], Data(g.avd));
  }

  /** The units of one group are of five different types. */
  lemma FiveSorted(b: seq<byte>, us: seq<ParsedUnit>, g: Gof)
    requires |us| == 5 && RecoversGof(b, us[0], us[1], us[2], us[3], us[4], g)
    requires g.ad.header.Ad? && g.ovd.header.Ovd? && g.gvd.header.Gvd? && g.avd.header.Avd?
    ensures Sorted(us) == FileMap([us[0]], [us[1]], [us[2]], [us[3]], [us[4]], [], [])
  {
    hide Select, RecoversGof, TypeOf;
    FiveTypes(b, us, g);
    SelectFive(us, 0);
    SelectFive(us, 1);
    SelectFive(us, 2);
    SelectFive(us, 3);
    SelectFive(us, 4);
    SelectFive(us, 5);
    SelectFive(us, 6);
  }

  function Joined(m: FileMap, n: FileMap): FileMap {
    FileMap(m.vps + n.vps, m.ad + n.ad, m.ovd + n.ovd, m.gvd + n.gvd, m.avd + n.avd, m.pvd + n.pvd, m.cad + n.cad)
  }

  lemma SortedConcat(a: seq<ParsedUnit>, b: seq<ParsedUnit>)
    ensures Sorted(a + b) == Joined(Sorted(a), Sorted(b))
  {
    hide Select;
    SelectConcat(a, b, 0);
    SelectConcat(a, b, 1);
    SelectConcat(a, b, 2);
    SelectConcat(a, b, 3);
    SelectConcat(a, b, 4);
    SelectConcat(a, b, 5);
    SelectConcat(a, b, 6);
  }

  lemma {:induction false} StreamLength(gofs: seq<Gof>)
    ensures |StreamOf(gofs)| == 5 * |gofs|
  {
    if gofs != [] {
      StreamLength(gofs[..|gofs| - 1]);
    }
  }

  lemma RecoversSplit(b: seq<byte>, us: seq<ParsedUnit>, x: seq<Item>, g: Gof)
    requires RecoversAll(b, us, x + ItemsOf(g))
    ensures |us| == |x| + 5 && RecoversAll(b, us[..|x|], x)
    ensures var last := us[|x|..];
            RecoversGof(b, last[0], last[1], last[2], last[3], last[4], g)
  {
    hide Recovers;
    var items := x + ItemsOf(g);
    assert forall i :: 0 <= i < |x| ==> items[i] == x[i];
    assert forall i :: 0 <= i < 5 ==> items[|x| + i] == ItemsOf(g)[i];
    assert Recovers(b, us[|x|], items[|x|]) && Recovers(b, us[|x| + 1], items[|x| + 1]);
    assert Recovers(b, us[|x| + 2], items[|x| + 2]) && Recovers(b, us[|x| + 3], items[|x| + 3]);
    assert Recovers(b, us[|x| + 4], items[|x| + 4]);
  }

  lemma NothingRecovered(b: seq<byte>, us: seq<ParsedUnit>)
    requires RecoversAll(b, us, [])
    ensures us == []
  {}

  lemma {:induction false} MapRecovers(b: seq<byte>, us: seq<ParsedUnit>, gofs: seq<Gof>, v: nat)
    requires AllGofsFit(gofs, v) && RecoversAll(b, us, StreamOf(gofs))
    ensures RecoversMap(b, Sorted(us), gofs)
  {
    hide RecoversGof, Select, RecoversAll, Written, FitsVps, Sorted;
    if gofs == [] {
      NothingRecovered(b, us);
      NothingSorted();
    } else {
      var (init, last) := (gofs[..|gofs| - 1], gofs[|gofs| - 1]);
      var n := |StreamOf(init)|;
      RecoversSplit(b, us, StreamOf(init), last);
      assert us == us[..n] + us[n..];
      MapRecovers(b, us[..n], init, v);
      assert FitsGof(last, v);
      FiveSorted(b, us[n..], last);
      SortedConcat(us[..n], us[n..]);
    }
  }

  /** Printing then parsing: for any number of groups whose sizes fit, the parser finds the same
      groups in the file, with the fields their headers can carry and the same NAL units. */
  lemma PrintThenParse(gofs: seq<Gof>, v: nat, rounds: nat)
    requires gofs != [] && 0 < v <= MAX_V3C_SIZE_PREC && AllGofsFit(gofs, v)
    requires |FileBytes(gofs, v)| < WRAP && rounds >= |FileBytes(gofs, v)|
    ensures var b := FileBytes(gofs, v);
            var r := ReadFile(b, rounds);
            r.Done? && RecoversMap(b, r.value, gofs)
  {
    hide RecoversMap, RecoversAll, AllGofsFit, AllFit, ItemPieces, Flatten, Sorted, FileBytes, StreamOf, ReadUnits;
    FileIsStream(gofs, v);
    var (b, w) := (FileBytes(gofs, v), Flatten(ItemPieces(StreamOf(gofs), v)));
    assert b[0] / 32 + 1 == v;
    assert b[1..] == w;
    ReadsItems(b, 1, StreamOf(gofs), v, rounds);
    MapRecovers(b, ReadUnits(b, 1, v, rounds, rounds).value, gofs, v);
  }
}
