/**
 * The receiving side of examples/v3c/v3c_util.cc: NAL units are grouped into V3C units as they
 * arrive, and ready groups of frames are written to a file.
 */
module V3cReceiver {
  import opened Bytes
  import opened V3cFormat
  import opened V3cParser

  const DEFAULT_ATLAS_NAL_SIZE_PRECISION := 2

  /** The header of the unit that follows n others of its type. */
  function NumberedHeader(h: Header, n: nat): Header {
    match h
    case Ad(_, _) => Ad(n % 0x100, 0)
    case Ovd(_, _) => Ovd(n % 0x100, 0)
    case Gvd(_, _, _, _) => Gvd(n % 0x100, 0, 0, false)
    case Avd(_, _, _, _, _, _) => Avd(n % 0x100, 0, 0, 0, 0, false)
    case Pvd(_, _) => Pvd(0, 0)
    case Cad(_) => Cad(0)
    case _ => h
  }

  function DefaultPrecision(h: Header): nat {
    if h.Ad? then DEFAULT_ATLAS_NAL_SIZE_PRECISION
    else if Received(h) then DEFAULT_VIDEO_NAL_SIZE_PRECISION
    else 0
  }

  function EmptyUnit(h: Header, n: nat): Unit {
    Unit(DefaultPrecision(h), NumberedHeader(h, n), [], 0, false)
  }

  function Last<T>(s: seq<T>): T
    requires s != []
  {
    s[|s| - 1]
  }

  /** copy_rtp_payload */
  function Extended(us: seq<Unit>, max: nat): (r: seq<Unit>)
    requires us != []
    ensures r != []
  {
    if |Last(us).nals| == max then us + [EmptyUnit(Last(us).header, |us|)] else us
  }

  function WithNal(u: Unit, max: nat, payload: seq<byte>): Unit {
    var v := if |u.nals| <= max then u.(nals := u.nals + [payload], ptr := u.ptr + |payload|) else u;
    if |v.nals| == max then v.(ready := true) else v
  }

  function Copied(us: seq<Unit>, max: nat, payload: seq<byte>): (r: seq<Unit>)
    requires us != []
    ensures r != []
  {
    var e := Extended(us, max);
    e[..|e| - 1] + [WithNal(Last(e), max, payload)]
  }

  /** The units once all payloads have been copied; init_mmap has provided the first unit. */
  function Grouped(h: Header, max: nat, payloads: seq<seq<byte>>): (us: seq<Unit>)
    ensures us != []
  {
    if payloads == [] then [EmptyUnit(h, 0)]
    else Copied(Grouped(h, max, payloads[..|payloads| - 1]), max, Last(payloads))
  }

  /** finalize_gof: on a timeout the last unit is taken as it is. */
  function Finalized(us: seq<Unit>): (r: seq<Unit>)
    requires us != []
    ensures |r| == |us|
  {
    us[..|us| - 1] + [Last(us).(ready := true)]
  }

  class UnitList {
    var units: seq<Unit>

    constructor (h: Header)
      ensures units == [EmptyUnit(h, 0)]
    {
      units := [EmptyUnit(h, 0)];
    }

    method CopyRtpPayload(max: nat, payload: seq<byte>)
      requires units != []
      modifies this
      ensures units == Copied(old(units), max, payload)
    {
      if |units[|units| - 1].nals| == max {
        units := units + [EmptyUnit(units[|units| - 1].header, |units|)];
      }
      var back := units[|units| - 1];
      if |back.nals| <= max {
        back := back.(nals := back.nals + [payload], ptr := back.ptr + |payload|);
      }
      if |back.nals| == max {
        back := back.(ready := true);
      }
      units := units[..|units| - 1] + [back];
    }

    /** finalize_gof, for one list */
    method Finalize()
      requires units != []
      modifies this
      ensures units == Finalized(old(units))
    {
      units := units[..|units| - 1] + [units[|units| - 1].(ready := true)];
    }
  }

  // ---------- what grouping achieves ----------

  function AllNals(us: seq<Unit>): seq<seq<byte>> {
    if us == [] then [] else AllNals(us[..|us| - 1]) + Last(us).nals
  }

  /** A unit that holds as many NAL units as it should. */
  predicate Complete(u: Unit, max: nat) {
    |u.nals| == max && u.ready
  }

  predicate Grouping(us: seq<Unit>, h: Header, max: nat) {
    && us != []
    && (forall i :: 0 <= i < |us| - 1 ==> Complete(us[i], max))
    && |Last(us).nals| <= max && (Last(us).ready <==> |Last(us).nals| == max)
    && (forall i :: 0 <= i < |us| ==> PtrIsRight(us[i]))
    && (forall i :: 0 <= i < |us| ==> us[i].header == NumberedHeader(h, i) && us[i].precision == DefaultPrecision(h))
  }

  lemma SizesSnoc(nals: seq<seq<byte>>, nal: seq<byte>)
    ensures Sizes(nals + [nal], |nals| + 1) == Sizes(nals, |nals|) + |nal|
  {
    SizesPrefix(nals, nals + [nal], |nals|);
  }

  lemma {:induction false} SizesPrefix(a: seq<seq<byte>>, b: seq<seq<byte>>, n: nat)
    requires n <= |a| && n <= |b| && forall i :: 0 <= i < n ==> a[i] == b[i]
    ensures Sizes(a, n) == Sizes(b, n)
  {
    if n > 0 {
      SizesPrefix(a, b, n - 1);
    }
  }

  lemma Renumbered(h: Header, i: nat, n: nat)
    ensures NumberedHeader(NumberedHeader(h, i), n) == NumberedHeader(h, n)
    ensures DefaultPrecision(NumberedHeader(h, i)) == DefaultPrecision(h)
  {}

  lemma EmptyUnitGroups(us: seq<Unit>, h: Header, max: nat)
    requires max > 0 && Grouping(us, h, max) && |Last(us).nals| == max
    ensures Grouping(us + [EmptyUnit(Last(us).header, |us|)], h, max)
  {
    hide NumberedHeader, DefaultPrecision;
    Renumbered(h, |us| - 1, |us|);
    var e := us + [EmptyUnit(Last(us).header, |us|)];
    assert forall i :: 0 <= i < |us| ==> e[i] == us[i];
    assert Complete(us[|us| - 1], max);
  }

  lemma ExtendedGroups(us: seq<Unit>, h: Header, max: nat)
    requires max > 0 && Grouping(us, h, max)
    ensures var e := Extended(us, max);
            Grouping(e, h, max) && |Last(e).nals| < max && AllNals(e) == AllNals(us)
  {
    if |Last(us).nals| == max {
      EmptyUnitGroups(us, h, max);
      var e := us + [EmptyUnit(Last(us).header, |us|)];
      assert e[..|e| - 1] == us;
      assert AllNals(us) + [] == AllNals(us);
    }
  }

  /** The last unit is replaced. */
  lemma ReplacedGroups(e: seq<Unit>, h: Header, max: nat, v: Unit)
    requires Grouping(e, h, max) && |v.nals| <= max && (v.ready <==> |v.nals| == max) && PtrIsRight(v)
    requires v.header == Last(e).header && v.precision == Last(e).precision
    ensures Grouping(e[..|e| - 1] + [v], h, max)
  {
    hide PtrIsRight, NumberedHeader, DefaultPrecision;
    var r := e[..|e| - 1] + [v];
    assert forall i :: 0 <= i < |r| - 1 ==> r[i] == e[i];
    assert Last(r) == v;
  }

  lemma CopiedGroups(us: seq<Unit>, h: Header, max: nat, payload: seq<byte>)
    requires max > 0 && Grouping(us, h, max)
    ensures Grouping(Copied(us, max, payload), h, max) && AllNals(Copied(us, max, payload)) == AllNals(us) + [payload]
  {
    hide NumberedHeader, DefaultPrecision, Sizes;
    ExtendedGroups(us, h, max);
    var e := Extended(us, max);
    var (init, last) := (e[..|e| - 1], Last(e));
    SizesSnoc(last.nals, payload);
    ReplacedGroups(e, h, max, WithNal(last, max, payload));
    assert Copied(us, max, payload)[..|init|] == init;
    assert AllNals(init) + (last.nals + [payload]) == AllNals(init) + last.nals + [payload];
  }

  lemma FirstUnit(h: Header, max: nat)
    requires max > 0
    ensures Grouping([EmptyUnit(h, 0)], h, max) && AllNals([EmptyUnit(h, 0)]) == []
  {
    assert [EmptyUnit(h, 0)][..0] == [];
  }

  /** Every unit but the last is full and ready, the last is ready exactly if it is full, every
      size is right, and the units hold the payloads received, in order. */
  lemma {:induction false} GroupsNals(h: Header, max: nat, payloads: seq<seq<byte>>)
    requires max > 0
    ensures Grouping(Grouped(h, max, payloads), h, max) && AllNals(Grouped(h, max, payloads)) == payloads
  {
    hide Grouping, AllNals, Copied, EmptyUnit;
    if payloads == [] {
      FirstUnit(h, max);
    } else {
      var init := payloads[..|payloads| - 1];
      GroupsNals(h, max, init);
      CopiedGroups(Grouped(h, max, init), h, max, Last(payloads));
      assert payloads == init + [Last(payloads)];
    }
  }

  lemma {:induction false} NoRoomAtAll(h: Header, payloads: seq<seq<byte>>)
    requires payloads != []
    ensures var us := Grouped(h, 0, payloads);
            |us| == 2 && |us[0].nals| == 0 && us[1].nals == [payloads[0]]
  {
    var init := payloads[..|payloads| - 1];
    if init == [] {
      assert Grouped(h, 0, init) == [EmptyUnit(h, 0)];
    } else {
      NoRoomAtAll(h, init);
    }
  }

  /** No payload is lost if and only if units may hold a NAL unit, or there is just one. */
  lemma PayloadsAreKept(h: Header, max: nat, payloads: seq<seq<byte>>)
    ensures AllNals(Grouped(h, max, payloads)) == payloads <==> max > 0 || |payloads| <= 1
  {
    if max > 0 {
      GroupsNals(h, max, payloads);
    } else if payloads == [] {
      assert [EmptyUnit(h, 0)][..0] == [];
    } else {
      NoRoomAtAll(h, payloads);
      var us := Grouped(h, max, payloads);
      assert us[..1] == [us[0]] && [us[0]][..0] == [];
      assert AllNals(us[..1]) == [];
    }
  }

  // ---------- where payloads are found again ----------

  /** What is in the units before the last, and in the last. */
  lemma {:induction false} AllNalsLength(us: seq<Unit>, max: nat)
    requires us != [] && forall k :: 0 <= k < |us| - 1 ==> |us[k].nals| == max
    ensures |AllNals(us)| == (|us| - 1) * max + |Last(us).nals|
  {
    var init := us[..|us| - 1];
    if init == [] {
      assert AllNals(init) == [];
    } else {
      AllNalsLength(init, max);
      OneMoreTime(|init|, max);
    }
  }

  /** The NAL unit is the j-th of group i. */
  predicate PlacedAt(payloads: seq<seq<byte>>, max: nat, i: nat, j: nat, nal: seq<byte>) {
    0 <= i * max + j < |payloads| && payloads[i * max + j] == nal
  }

  lemma {:induction false} NalsInPlace(us: seq<Unit>, max: nat, i: nat, j: nat)
    requires i < |us| && j < |us[i].nals| && forall k :: 0 <= k < |us| - 1 ==> |us[k].nals| == max
    ensures PlacedAt(AllNals(us), max, i, j, us[i].nals[j])
  {
    var init := us[..|us| - 1];
    if i < |init| {
      NalsInPlace(init, max, i, j);
      PlacedOn(AllNals(init), Last(us).nals, max, i, j, us[i].nals[j]);
    } else {
      if init != [] {
        AllNalsLength(init, max);
        OneMoreTime(|init|, max);
      } else {
        assert AllNals(init) == [];
      }
      PlacedLast(AllNals(init), Last(us).nals, max, i, j);
    }
  }

  lemma PlacedOn(a: seq<seq<byte>>, b: seq<seq<byte>>, max: nat, i: nat, j: nat, nal: seq<byte>)
    requires PlacedAt(a, max, i, j, nal)
    ensures PlacedAt(a + b, max, i, j, nal)
  {}

  lemma PlacedLast(a: seq<seq<byte>>, b: seq<seq<byte>>, max: nat, i: nat, j: nat)
    requires |a| == i * max && j < |b|
    ensures PlacedAt(a + b, max, i, j, b[j])
  {}

  /** How many of the payloads fall to group i. */
  function Share(count: nat, max: nat, i: nat): nat {
    if count < i * max then 0 else if count - i * max < max then count - i * max else max
  }

  lemma ShareIs(count: nat, max: nat, i: nat, groups: nat, last: nat)
    requires i < groups && last <= max && count == (groups - 1) * max + last
    ensures Share(count, max, i) == if i < groups - 1 then max else last
  {
    if i < groups - 1 {
      assert i * max + max == (i + 1) * max;
      Monotone(i + 1, groups - 1, max);
    }
  }

  lemma Monotone(x: nat, y: nat, z: nat)
    requires x <= y
    ensures x * z <= y * z
  {}

  // ---------- from the network to a file and back ----------

  /** The units received of one type, the last perhaps ended by a timeout. */
  function Collected(h: Header, max: nat, payloads: seq<seq<byte>>, timedOut: bool): seq<Unit> {
    var us := Grouped(h, max, payloads);
    if timedOut then Finalized(us) else us
  }

  /** The units of a group that is_gof_ready has found complete. */
  predicate ReadyAt(us: seq<Unit>, n: nat) {
    n <= |us| && forall i :: 0 <= i < n ==> us[i].ready
  }

  /** Unit i has its share of the payloads, in order. */
  predicate HasShare(u: Unit, max: nat, payloads: seq<seq<byte>>, i: nat) {
    |u.nals| == Share(|payloads|, max, i) && forall j :: 0 <= j < |u.nals| ==> PlacedAt(payloads, max, i, j, u.nals[j])
  }

  lemma GroupedShare(us: seq<Unit>, h: Header, max: nat, i: nat)
    requires Grouping(us, h, max) && i < |us|
    ensures HasShare(us[i], max, AllNals(us), i)
  {
    hide AllNals, PlacedAt, Share, NumberedHeader, DefaultPrecision, PtrIsRight;
    forall k | 0 <= k < |us| - 1
      ensures |us[k].nals| == max
    {
      assert Complete(us[k], max);
    }
    AllNalsLength(us, max);
    ShareIs(|AllNals(us)|, max, i, |us|, |Last(us).nals|);
    forall j | 0 <= j < |us[i].nals|
      ensures PlacedAt(AllNals(us), max, i, j, us[i].nals[j])
    {
      NalsInPlace(us, max, i, j);
    }
  }

  /** What unit i holds once it is ready: payload i * max + j as its j-th NAL unit, and max of
      them unless it was ended by a timeout. */
  lemma ReadyNals(h: Header, max: nat, payloads: seq<seq<byte>>, timedOut: bool, n: nat, i: nat)
    requires max > 0 && i < n && ReadyAt(Collected(h, max, payloads, timedOut), n)
    ensures var u := Collected(h, max, payloads, timedOut)[i];
            u.header == NumberedHeader(h, i) && PtrIsRight(u) && HasShare(u, max, payloads, i) &&
            (!timedOut ==> |u.nals| == max)
  {
    hide AllNals, Grouped, PtrIsRight, NumberedHeader, DefaultPrecision, HasShare;
    GroupsNals(h, max, payloads);
    var us := Grouped(h, max, payloads);
    GroupedShare(us, h, max, i);
    assert !timedOut ==> us[i].ready;
    ReadyAside(us[i], max, payloads, i);
  }

  lemma ReadyAside(u: Unit, max: nat, payloads: seq<seq<byte>>, i: nat)
    ensures PtrIsRight(u.(ready := true)) <==> PtrIsRight(u)
    ensures HasShare(u.(ready := true), max, payloads, i) <==> HasShare(u, max, payloads, i)
  {}

  /** The NAL units the parser finds for group i are the payloads received for it. */
  predicate IsPayloads(b: seq<byte>, infos: seq<NalInfo>, max: nat, payloads: seq<seq<byte>>, i: nat) {
    |infos| == Share(|payloads|, max, i) &&
    forall j :: 0 <= j < |infos| ==>
      infos[j].location + infos[j].size <= |b| &&
      PlacedAt(payloads, max, i, j, b[infos[j].location..infos[j].location + infos[j].size])
  }

  lemma PayloadsRecovered(b: seq<byte>, p: ParsedUnit, u: Unit, max: nat, payloads: seq<seq<byte>>, i: nat)
    requires HasShare(u, max, payloads, i) && Recovers(b, p, Data(u))
    ensures IsPayloads(b, p.nals, max, payloads, i) && p.header == Carried(u.header)
  {
    hide Carried, PlacedAt, Share;
    forall j | 0 <= j < |p.nals|
      ensures p.nals[j].location + p.nals[j].size <= |b| &&
              PlacedAt(payloads, max, i, j, b[p.nals[j].location..p.nals[j].location + p.nals[j].size])
    {
      assert PlacedAt(payloads, max, i, j, u.nals[j]);
    }
  }

  /** The number of a group is read back if and only if four of its eight bits are enough. */
  lemma NumberSurvives(h: Header, i: nat)
    requires Received(h)
    ensures Carried(NumberedHeader(h, i)) == NumberedHeader(h, i) <==> i % 0x100 < 16
  {
    HeaderIsExact(NumberedHeader(h, i));
  }

  /** Of the header of group i nothing but its type and four bits of the number are set. */
  lemma NumberOctets(h: Header, i: nat)
    requires Received(h)
    ensures HeaderBytes(NumberedHeader(h, i)) == [TypeOf(h) * 8 + i % 16 / 2, i % 2 * 0x80, 0, 0]
  {
    hide FirstOctet, SecondOctet, OrBytes;
    var n := NumberedHeader(h, i);
    FirstOctetIs(n);
    SecondOctetIs(n);
    if n.Gvd? {
      GvdOctets(n);
    } else if n.Avd? {
      AvdOctets(n);
      assert Or(0, 0) == 0;
    }
    LowNumber(i);
  }

  lemma LowNumber(i: nat)
    ensures i % 0x100 % 16 == i % 16 && i % 0x100 % 2 == i % 2
  {}

  /** What has been received on the five streams of a session, and whether time ran out. */
  datatype Streams = Streams(vps: seq<seq<byte>>, ad: seq<seq<byte>>, ovd: seq<seq<byte>>, gvd: seq<seq<byte>>,
    avd: seq<seq<byte>>, timedOut: bool)

  /** NAL units per unit, for each stream. */
  datatype Counts = Counts(ad: nat, ovd: nat, gvd: nat, avd: nat)

  const AD := Ad(0, 0)
  const OVD := Ovd(0, 0)
  const GVD := Gvd(0, 0, 0, false)
  const AVD := Avd(0, 0, 0, 0, 0, false)

  /** is_gof_ready, for every group before the n-th */
  predicate GofsReady(s: Streams, c: Counts, n: nat) {
    n <= |s.vps| && ReadyAt(Collected(AD, c.ad, s.ad, s.timedOut), n) &&
    ReadyAt(Collected(OVD, c.ovd, s.ovd, s.timedOut), n) && ReadyAt(Collected(GVD, c.gvd, s.gvd, s.timedOut), n) &&
    ReadyAt(Collected(AVD, c.avd, s.avd, s.timedOut), n)
  }

  function Gofs(s: Streams, c: Counts, n: nat): (gofs: seq<Gof>)
    requires GofsReady(s, c, n)
    ensures |gofs| == n
  {
    seq(n, i requires 0 <= i < n =>
          Gof(s.vps[i], Collected(AD, c.ad, s.ad, s.timedOut)[i], Collected(OVD, c.ovd, s.ovd, s.timedOut)[i],
              Collected(GVD, c.gvd, s.gvd, s.timedOut)[i], Collected(AVD, c.avd, s.avd, s.timedOut)[i]))
  }

  /** The parsed unit has the number of group i, as far as it can be carried, and its payloads. */
  predicate IsGroup(b: seq<byte>, p: ParsedUnit, h: Header, max: nat, payloads: seq<seq<byte>>, i: nat) {
    p.header == Carried(NumberedHeader(h, i)) && IsPayloads(b, p.nals, max, payloads, i)
  }

  lemma GroupRecovered(b: seq<byte>, p: ParsedUnit, h: Header, max: nat, payloads: seq<seq<byte>>, timedOut: bool,
                       n: nat, i: nat)
    requires max > 0 && i < n && ReadyAt(Collected(h, max, payloads, timedOut), n)
    requires Recovers(b, p, Data(Collected(h, max, payloads, timedOut)[i]))
    ensures IsGroup(b, p, h, max, payloads, i) && (!timedOut ==> |p.nals| == max)
  {
    hide Collected, Carried, NumberedHeader, IsPayloads, HasShare;
    ReadyNals(h, max, payloads, timedOut, n, i);
    PayloadsRecovered(b, p, Collected(h, max, payloads, timedOut)[i], max, payloads, i);
  }

  /** End to end: if the first n groups are ready and their sizes fit, the file they are written
      to is parsed to n groups, with their numbers as far as headers carry them and the payloads
      received, stream by stream and in order. */
  lemma ReceivedThenParsed(s: Streams, c: Counts, n: nat, v: nat, i: nat, rounds: nat)
    requires c.ad > 0 && c.ovd > 0 && c.gvd > 0 && c.avd > 0 && 0 < v <= MAX_V3C_SIZE_PREC
    requires i < n && GofsReady(s, c, n) && AllGofsFit(Gofs(s, c, n), v)
    requires |FileBytes(Gofs(s, c, n), v)| < WRAP && rounds >= |FileBytes(Gofs(s, c, n), v)|
    ensures var b := FileBytes(Gofs(s, c, n), v);
            var r := ReadFile(b, rounds);
            && r.Done? && |r.value.vps| == |r.value.ad| == |r.value.ovd| == |r.value.gvd| == |r.value.avd| == n
            && Carries(b, r.value.vps[i].nals, [s.vps[i]])
            && IsGroup(b, r.value.ad[i], AD, c.ad, s.ad, i) && IsGroup(b, r.value.ovd[i], OVD, c.ovd, s.ovd, i)
            && IsGroup(b, r.value.gvd[i], GVD, c.gvd, s.gvd, i) && IsGroup(b, r.value.avd[i], AVD, c.avd, s.avd, i)
            && (!s.timedOut ==> && |r.value.ad[i].nals| == c.ad && |r.value.ovd[i].nals| == c.ovd
                                && |r.value.gvd[i].nals| == c.gvd && |r.value.avd[i].nals| == c.avd)
  {
    hide AllGofsFit, FileBytes, ReadFile, IsGroup, Recovers, Collected, ReadyAt;
    var gofs := Gofs(s, c, n);
    PrintThenParse(gofs, v, rounds);
    var (b, g) := (FileBytes(gofs, v), gofs[i]);
    var m := ReadFile(b, rounds).value;
    assert RecoversGof(b, m.vps[i], m.ad[i], m.ovd[i], m.gvd[i], m.avd[i], g);
    GroupRecovered(b, m.ad[i], AD, c.ad, s.ad, s.timedOut, n, i);
    GroupRecovered(b, m.ovd[i], OVD, c.ovd, s.ovd, s.timedOut, n, i);
    GroupRecovered(b, m.gvd[i], GVD, c.gvd, s.gvd, s.timedOut, n, i);
    GroupRecovered(b, m.avd[i], AVD, c.avd, s.avd, s.timedOut, n, i);
    ParamsRecovered(b, m.vps[i], s.vps[i]);
  }

  lemma ParamsRecovered(b: seq<byte>, u: ParsedUnit, vps: seq<byte>)
    requires Recovers(b, u, Params(vps))
    ensures Carries(b, u.nals, [vps])
  {}
}
