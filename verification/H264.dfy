/** STAP-A aggregation packets of src/formats/h264.cc (RFC 6184 section 5.7.1). */
module H264 {
  import opened Bytes
  import opened Wrappers

  const H264_STAP_A: byte := 24
  const H264_PKT_FRAG: byte := 28
  const UINT16_MAX := 0xffff

  /** The NRI bits of the first octet of a NAL unit. */
  function Nri(nal: seq<byte>): (n: nat)
    requires nal != []
    ensures n < 4
  {
    nal[0] / 32 % 4
  }

  predicate NonEmpty(nals: seq<seq<byte>>) {
    forall i :: 0 <= i < |nals| ==> nals[i] != []
  }

  /** A NAL unit with its size, if the size fits 16 bits. */
  function Entry(nal: seq<byte>): seq<seq<byte>> {
    if |nal| <= UINT16_MAX then [Be16(|nal|), nal] else []
  }

  function Entries(nals: seq<seq<byte>>): seq<seq<byte>> {
    if nals == [] then [] else Entries(nals[..|nals| - 1]) + Entry(nals[|nals| - 1])
  }

  function StapHeader(nri: nat): byte
    requires nri < 4
  {
    nri * 32 + H264_STAP_A
  }

  /** The largest NRI of all units is that of some unit. */
  predicate IsMaximalNri(nri: nat, nals: seq<seq<byte>>)
    requires NonEmpty(nals)
  {
    (forall i :: 0 <= i < |nals| ==> Nri(nals[i]) <= nri) && exists i :: 0 <= i < |nals| && Nri(nals[i]) == nri
  }

  /** Undefined stands for a unit without octets, whose first octet is read all the same. */
  datatype Finalized = TooFew | Undefined | Built

  class Aggregator {
    var nalus: seq<seq<byte>>
    var aggrPkt: seq<seq<byte>>

    constructor ()
      ensures nalus == [] && aggrPkt == []
    {
      nalus, aggrPkt := [], [];
    }

    method ClearAggregationInfo()
      modifies this
      ensures nalus == [] && aggrPkt == []
    {
      nalus, aggrPkt := [], [];
    }

    method AddAggregatePacket(nal: seq<byte>)
      modifies this`nalus
      ensures nalus == old(nalus) + [nal]
    {
      nalus := nalus + [nal];
    }

    /** None stands for the first octet of a unit that has none, which the source reads all the
        same. */
    method MaximalNri() returns (r: Option<nat>)
      requires nalus != []
      ensures r.Some? <==> NonEmpty(nalus)
      ensures r.Some? ==> r.value < 4 && IsMaximalNri(r.value, nalus)
    {
      var nri := 0;
      for i := 0 to |nalus|
        invariant NonEmpty(nalus[..i]) && nri < 4 && forall j :: 0 <= j < i ==> Nri(nalus[..i][j]) <= nri
        invariant i == 0 ==> nri == 0
        invariant i > 0 ==> exists j :: 0 <= j < i && Nri(nalus[..i][j]) == nri
      {
        if nalus[i] == [] {
          return None;
        }
        ghost var before := nalus[..i];
        ghost var now := nalus[..i + 1];
        assert forall j :: 0 <= j < i ==> now[j] == before[j];
        if Nri(nalus[i]) > nri {
          nri := Nri(nalus[i]);
        }
        assert i == 0 || Nri(nalus[i]) == nri ==> Nri(now[i]) == nri;
      }
      assert nalus[..|nalus|] == nalus;
      r := Some(nri);
    }

    /** What is enqueued: the header, then size and octets of each unit. */
    method FinalizeAggregationPkt() returns (r: Finalized)
      modifies this`aggrPkt
      ensures r == if |nalus| <= 1 then TooFew else if NonEmpty(nalus) then Built else Undefined
      ensures r.Built? ==>
                exists nri ::
                  0 <= nri < 4 && IsMaximalNri(nri, nalus) &&
                  aggrPkt == old(aggrPkt) + [[StapHeader(nri)]] + Entries(nalus)
      ensures !r.Built? ==> aggrPkt == old(aggrPkt)
    {
      if |nalus| <= 1 {
        return TooFew;
      }
      var maximal := MaximalNri();
      if maximal == None {
        return Undefined;
      }
      var nri := maximal.value;
      aggrPkt := aggrPkt + [[StapHeader(nri)]];
      for i := 0 to |nalus|
        invariant aggrPkt == old(aggrPkt) + [[StapHeader(nri)]] + Entries(nalus[..i])
      {
        assert nalus[..i + 1][..i] == nalus[..i];
        if |nalus[i]| <= UINT16_MAX {
          aggrPkt := aggrPkt + [Be16(|nalus[i]|)] + [nalus[i]];
        }
      }
      assert nalus[..|nalus|] == nalus;
      r := Built;
    }
  }

  // ---------- reading a STAP-A packet ----------

  /** Sizes and units from p on; None if they do not end with the packet. */
  function ReadStap(b: seq<byte>, p: nat): Option<seq<seq<byte>>>
    requires p <= |b|
    decreases |b| - p
  {
    if p == |b| then Some([])
    else if p + 2 > |b| || p + 2 + GetBe16(b, p) > |b| then None
    else
      var next := p + 2 + GetBe16(b, p);
      match ReadStap(b, next)
      case None => None
      case Some(rest) => Some([b[p + 2..next]] + rest)
  }

  /** The units that fit. */
  function Aggregated(nals: seq<seq<byte>>): seq<seq<byte>> {
    if nals == [] then []
    else Aggregated(nals[..|nals| - 1]) + (if |nals[|nals| - 1]| <= UINT16_MAX then [nals[|nals| - 1]] else [])
  }

  function Sized(nals: seq<seq<byte>>): seq<seq<byte>>
    requires forall i :: 0 <= i < |nals| ==> |nals[i]| <= UINT16_MAX
  {
    if nals == [] then [] else [Be16(|nals[0]|), nals[0]] + Sized(nals[1..])
  }

  lemma {:induction false} SizedSnoc(nals: seq<seq<byte>>, nal: seq<byte>)
    requires |nal| <= UINT16_MAX && forall i :: 0 <= i < |nals| ==> |nals[i]| <= UINT16_MAX
    ensures Sized(nals + [nal]) == Sized(nals) + [Be16(|nal|), nal]
  {
    if nals == [] {
      assert [] + [nal] == [nal] && [nal][1..] == [];
    } else {
      assert (nals + [nal])[1..] == nals[1..] + [nal];
      SizedSnoc(nals[1..], nal);
    }
  }

  /** The entries are those of the units that fit, in order. */
  lemma {:induction false} EntriesAreSized(nals: seq<seq<byte>>)
    ensures forall i :: 0 <= i < |Aggregated(nals)| ==> |Aggregated(nals)[i]| <= UINT16_MAX
    ensures Entries(nals) == Sized(Aggregated(nals))
  {
    if nals != [] {
      var (init, last) := (nals[..|nals| - 1], nals[|nals| - 1]);
      EntriesAreSized(init);
      if |last| <= UINT16_MAX {
        SizedSnoc(Aggregated(init), last);
      } else {
        assert Entries(init) + [] == Entries(init) && Aggregated(init) + [] == Aggregated(init);
      }
    }
  }

  lemma ReadsEntry(b: seq<byte>, p: nat, nal: seq<byte>, rest: seq<seq<byte>>)
    requires |nal| <= UINT16_MAX && At(b, p, Flatten([Be16(|nal|), nal] + rest))
    ensures p + 2 + |nal| <= |b| && GetBe16(b, p) == |nal| && b[p + 2..p + 2 + |nal|] == nal
    ensures At(b, p + 2 + |nal|, Flatten(rest)) && |Flatten([Be16(|nal|), nal] + rest)| == 2 + |nal| + |Flatten(rest)|
  {
    hide Flatten;
    var s := [Be16(|nal|), nal] + rest;
    FlattenSplit(b, p, s);
    FlattenSplit(b, p + 2, s[1..]);
    assert s[1..][1..] == rest;
    Be16RoundTrip(|nal|, b, p);
  }

  lemma {:induction false} ReadsSized(b: seq<byte>, p: nat, nals: seq<seq<byte>>)
    requires forall i :: 0 <= i < |nals| ==> |nals[i]| <= UINT16_MAX
    requires p <= |b| && At(b, p, Flatten(Sized(nals))) && p + |Flatten(Sized(nals))| == |b|
    ensures ReadStap(b, p) == Some(nals)
    decreases |nals|
  {
    hide GetBe16;
    if nals == [] {
      assert p == |b|;
    } else {
      ReadsEntry(b, p, nals[0], Sized(nals[1..]));
      ReadsSized(b, p + 2 + |nals[0]|, nals[1..]);
      assert nals == [nals[0]] + nals[1..];
    }
  }

  /** A packet built from any queue reads back, after its header, as the queued units of at most
      65535 octets, in order; the header has the STAP-A type, no forbidden bit, and the NRI. */
  lemma StapRoundTrip(nals: seq<seq<byte>>, nri: nat)
    requires nri < 4
    ensures var b := Flatten([[StapHeader(nri)]] + Entries(nals));
            |b| > 0 && b[0] % 32 == H264_STAP_A && b[0] / 128 == 0 && Nri(b) == nri &&
            ReadStap(b, 1) == Some(Aggregated(nals))
  {
    EntriesAreSized(nals);
    var (h, rest) := (StapHeader(nri), Entries(nals));
    FlattenConcat([[h]], rest);
    FlattenOne([h]);
    var b := Flatten([[h]] + rest);
    assert b[1..] == Flatten(rest);
    assert At(b, 1, Flatten(rest));
    ReadsSized(b, 1, Aggregated(nals));
  }

  // ---------- fragmentation units ----------

  /** fu_division: the indicator keeps the forbidden and NRI bits, the FU headers the type. */
  function FuIndicator(nalHeader: byte): byte {
    nalHeader / 32 * 32 + H264_PKT_FRAG
  }

  /** get_nal_header_from_fu_headers */
  function NalHeaderFromFu(indicator: byte, fuHeader: byte): byte {
    indicator / 32 * 32 + fuHeader % 32
  }

  /** Whatever flags a fragment carries, its two headers give the NAL header back. */
  lemma NalHeaderSurvives(nalHeader: byte, flags: nat)
    requires flags < 8
    ensures NalHeaderFromFu(FuIndicator(nalHeader), flags * 32 + nalHeader % 32) == nalHeader
  {}
}
