/** generate_report of src/rtcp.cc: the compound packet a report interval ends with. */
module RtcpReports {
  import opened Bytes
  import opened Wrappers
  import opened RtcpTracker
  import opened RtcpSession
  import opened RtcpPackets

  // ---------- one packet at a time ----------

  lemma BlocksSnoc(blocks: seq<ReportBlock>, i: nat)
    requires i < |blocks|
    ensures BlocksBytes(blocks[..i + 1]) == BlocksBytes(blocks[..i]) + BlockBytes(blocks[i])
  {
    assert blocks[..i + 1][..i] == blocks[..i];
  }

  method WriteBlocks(frame: array<byte>, ptr: nat, blocks: seq<ReportBlock>, ghost out: seq<byte>) returns (next: nat)
    requires Holds(frame, out) && ptr == |out| && ptr + REPORT_BLOCK_SIZE * |blocks| <= frame.Length
    modifies frame
    ensures Holds(frame, out + BlocksBytes(blocks)) && next == ptr + REPORT_BLOCK_SIZE * |blocks|
  {
    next := ptr;
    for i := 0 to |blocks|
      invariant next == ptr + REPORT_BLOCK_SIZE * i
      invariant Holds(frame, out + BlocksBytes(blocks[..i]))
    {
      BlocksSnoc(blocks, i);
      next := ConstructReportBlock(frame, next, blocks[i], out + BlocksBytes(blocks[..i]));
      Associate(out, BlocksBytes(blocks[..i]), BlockBytes(blocks[i]));
    }
    assert blocks[..|blocks|] == blocks;
  }

  /** Under SRTP the size of a report takes in a trailer of 14 octets, which is no multiple of
      four, so that the header is refused. */
  method WriteHead(frame: array<byte>, info: Option<SenderInfo>, srtp: bool, reports: nat, ssrc: u32)
    returns (ok: bool, ptr: nat)
    requires Holds(frame, []) && reports < 32 && ReportSize(info.Some?, srtp, reports) <= frame.Length
    modifies frame
    ensures ok <==> !srtp
    ensures ok ==> Holds(frame, HeadBytes(info, reports, ssrc)) && ptr == |HeadBytes(info, reports, ssrc)|
  {
    var size := ReportSize(info.Some?, srtp, reports);
    var frameType := if info.Some? then FT_SR else FT_RR;
    ok, ptr := ConstructRtcpHeader(frame, 0, size, reports, frameType, []);
    if ok {
      ghost var head := HeaderBytes(size, reports, frameType);
      assert [] + head == head;
      ptr := SetNextField32(frame, ptr, ssrc, head);
      if info.Some? {
        ptr := ConstructSenderInfo(frame, ptr, info.value, head + Be32(ssrc));
      }
    }
  }

  lemma ReportIsWritable(ssrc: u32, info: Option<SenderInfo>, blocks: seq<ReportBlock>)
    requires |blocks| < 32
    ensures Writable(Report(ssrc, info, blocks))
  {
    assert ReportSize(info.Some?, false, |blocks|) % 4 == 0;
  }

  method WriteSdes(frame: array<byte>, ptr: nat, count: nat, ssrc: u32, items: seq<Item>, ghost out: seq<byte>)
    returns (ok: bool, next: nat)
    requires Holds(frame, out) && ptr == |out| && ptr % 4 == 0 && count < 32 && GoodItems(items)
    requires ptr + SdesPacketSize(items) <= frame.Length
    modifies frame
    ensures ok <==> HeaderAccepts(SdesPacketSize(items)) && HasCname(items)
    ensures ok ==> next == ptr + SdesPacketSize(items) && Holds(frame, out + PacketBytes(Sdes(count, ssrc, items)))
  {
    hide ItemBytes, Be32;
    var size := GetSdesPacketSize(items);
    ok, next := ConstructRtcpHeader(frame, ptr, size, count, FT_SDES, out);
    if ok {
      ghost var head := HeaderBytes(size, count, FT_SDES);
      ok, next := ConstructSdesChunk(frame, next, ssrc, items, out + head);
      Associate(out, head, ChunkBytes(ssrc, items));
    }
  }

  /** construct_app_block */
  method WriteApp(frame: array<byte>, ptr: nat, ssrc: u32, app: AppPacket, ghost out: seq<byte>)
    returns (ok: bool, next: nat)
    requires Holds(frame, out) && ptr == |out| && |app.name| == APP_NAME_SIZE
    requires ptr + AppPacketSize(|app.payload|) <= frame.Length
    modifies frame
    ensures ok <==> HeaderAccepts(AppPacketSize(|app.payload|))
    ensures ok ==> next == ptr + AppPacketSize(|app.payload|) && Holds(frame, out + PacketBytes(App(ssrc, app)))
  {
    var size := AppPacketSize(|app.payload|);
    ok, next := ConstructRtcpHeader(frame, ptr, size, app.subtype % 32, FT_APP, out);
    if ok {
      ghost var head := HeaderBytes(size, app.subtype % 32, FT_APP);
      next := SetNextField32(frame, next, ssrc, out + head);
      next := ConstructAppPacket(frame, next, app, out + head + Be32(ssrc));
      assert out + head + Be32(ssrc) + (app.name + app.payload) == out + (head + Be32(ssrc) + (app.name + app.payload));
    }
  }

  method WriteBye(frame: array<byte>, ptr: nat, ssrcs: seq<u32>, ghost out: seq<byte>) returns (ok: bool, next: nat)
    requires Holds(frame, out) && ptr == |out| && ptr + ByePacketSize(ssrcs) <= frame.Length
    modifies frame
    ensures ok <==> HeaderAccepts(ByePacketSize(ssrcs))
    ensures ok ==> next == ptr + ByePacketSize(ssrcs) && Holds(frame, out + PacketBytes(Bye(ssrcs)))
  {
    ok, next := ConstructRtcpHeader(frame, ptr, ByePacketSize(ssrcs), |ssrcs| % 32, FT_BYE, out);
    if ok {
      ghost var head := HeaderBytes(ByePacketSize(ssrcs), |ssrcs| % 32, FT_BYE);
      next := ConstructByePacket(frame, next, ssrcs, out + head);
      assert out + head + SsrcsBytes(ssrcs) == out + (head + SsrcsBytes(ssrcs));
    }
  }

  // ---------- the compound packet ----------

  /** The APP packets due: the oldest one waiting under each name. */
  function DueApps(queues: seq<seq<AppPacket>>): seq<AppPacket> {
    if queues == [] then []
    else
      var last := queues[|queues| - 1];
      DueApps(queues[..|queues| - 1]) + (if last == [] then [] else [last[0]])
  }

  /** The queues once the first n due packets have been taken. */
  function Taken(queues: seq<seq<AppPacket>>, n: nat): seq<seq<AppPacket>> {
    if queues == [] || n == 0 then queues
    else if queues[0] == [] then [[]] + Taken(queues[1..], n)
    else [queues[0][1..]] + Taken(queues[1..], n - 1)
  }

  function AppPackets(ssrc: u32, apps: seq<AppPacket>): (ps: seq<Packet>)
    ensures |ps| == |apps| && forall i :: 0 <= i < |ps| ==> ps[i] == App(ssrc, apps[i])
  {
    seq(|apps|, i requires 0 <= i < |apps| => App(ssrc, apps[i]))
  }

  /** The packets of one report: SR or RR first, then SDES, the APP packets due, and BYE last. */
  function Planned(ssrc: u32, info: Option<SenderInfo>, blocks: seq<ReportBlock>, count: byte, items: seq<Item>,
                   apps: seq<AppPacket>, byes: seq<u32>): (ps: seq<Packet>)
    ensures |ps| >= 2
  {
    [Report(ssrc, info, blocks), Sdes(count, ssrc, items)] +
    AppPackets(ssrc, apps) + (if byes == [] then [] else [Bye(byes)])
  }

  /** Every packet has a size that fits the header. */
  predicate AllAccepted(ps: seq<Packet>) {
    forall i :: 0 <= i < |ps| ==> HeaderAccepts(SizeOf(ps[i]))
  }

  function CountHeard(table: map<u32, Participant>, order: seq<u32>, n: nat): (r: nat)
    requires n <= |order| && forall i :: 0 <= i < |order| ==> order[i] in table
    ensures r <= n
  {
    if n == 0 then 0
    else CountHeard(table, order, n - 1) + (if table[order[n - 1]].receivedRtpPacket then 1 else 0)
  }

  lemma {:induction false} CountsReports(table: map<u32, Participant>, timing: u32 -> Timing, order: seq<u32>, n: nat)
    requires n <= |order| && forall i :: 0 <= i < |order| ==> order[i] in table
    ensures |ReportsOn(table, timing, order, n)| == CountHeard(table, order, n)
  {
    if n != 0 {
      CountsReports(table, timing, order, n - 1);
    }
  }

  method CountReports(table: map<u32, Participant>, order: seq<u32>) returns (reports: nat)
    requires Enumerates(order, table.Keys)
    ensures reports == CountHeard(table, order, |order|)
  {
    reports := 0;
    for i := 0 to |order|
      invariant reports == CountHeard(table, order, i)
    {
      if table[order[i]].receivedRtpPacket {
        reports := reports + 1;
      }
    }
  }

  /** The size of the first n APP packets. */
  function AppsSize(apps: seq<AppPacket>, n: nat): nat
    requires n <= |apps|
  {
    if n == 0 then 0 else AppsSize(apps, n - 1) + AppPacketSize(|apps[n - 1].payload|)
  }

  predicate AppsAccepted(apps: seq<AppPacket>, n: nat)
    requires n <= |apps|
  {
    forall i :: 0 <= i < n ==> HeaderAccepts(AppPacketSize(|apps[i].payload|)) && |apps[i].name| == APP_NAME_SIZE
  }

  predicate NamesAreGood(queues: seq<seq<AppPacket>>) {
    forall i, j :: 0 <= i < |queues| && 0 <= j < |queues[i]| ==> |queues[i][j].name| == APP_NAME_SIZE
  }

  function AppsEncoded(ssrc: u32, apps: seq<AppPacket>): seq<seq<byte>>
    requires AppsAccepted(apps, |apps|)
  {
    seq(|apps|, i requires 0 <= i < |apps| => PacketBytes(App(ssrc, apps[i])))
  }

  /** The octets of the first n APP packets. */
  function AppsBytes(ssrc: u32, apps: seq<AppPacket>, n: nat): (b: seq<byte>)
    requires n <= |apps| && AppsAccepted(apps, n)
    ensures |b| == AppsSize(apps, n)
  {
    if n == 0 then [] else AppsBytes(ssrc, apps, n - 1) + PacketBytes(App(ssrc, apps[n - 1]))
  }

  lemma {:induction false} AppsFlatten(ssrc: u32, apps: seq<AppPacket>, n: nat)
    requires n <= |apps| && AppsAccepted(apps, |apps|)
    ensures Flatten(AppsEncoded(ssrc, apps)[..n]) == AppsBytes(ssrc, apps, n)
  {
    hide PacketBytes, AppPacketSize, HeaderAccepts;
    if n != 0 {
      AppsFlatten(ssrc, apps, n - 1);
      assert AppsEncoded(ssrc, apps)[..n][..n - 1] == AppsEncoded(ssrc, apps)[..n - 1];
    }
  }

  lemma {:induction false} AppsPrefix(apps: seq<AppPacket>, n: nat, m: nat)
    requires n <= m <= |apps|
    ensures AppsSize(apps, n) <= AppsSize(apps, m)
  {
    if n < m {
      AppsPrefix(apps, n, m - 1);
    }
  }

  method SizeOfReadyAppPackets(apps: seq<AppPacket>) returns (size: nat)
    ensures size == AppsSize(apps, |apps|)
  {
    size := 0;
    for i := 0 to |apps|
      invariant size == AppsSize(apps, i)
    {
      size := size + AppPacketSize(|apps[i].payload|);
    }
  }

  lemma {:induction false} TakenNames(queues: seq<seq<AppPacket>>, n: nat)
    requires NamesAreGood(queues)
    ensures NamesAreGood(Taken(queues, n))
  {
    if queues != [] && n != 0 {
      TakenNames(queues[1..], n);
      if queues[0] != [] {
        TakenNames(queues[1..], n - 1);
      }
    }
  }

  lemma {:induction false} DueNames(queues: seq<seq<AppPacket>>)
    requires NamesAreGood(queues)
    ensures forall i :: 0 <= i < |DueApps(queues)| ==> |DueApps(queues)[i].name| == APP_NAME_SIZE
  {
    if queues != [] {
      DueNames(queues[..|queues| - 1]);
    }
  }

  // What becomes of the packets waiting under each name

  /** A packet is queued under name k, or a report takes n of the packets due. */
  datatype AppEvent = Queued(k: nat, app: AppPacket) | Served(n: nat)

  /** The queues after these events, and the packets that reports have taken from them. */
  function AppRun(queues: seq<seq<AppPacket>>, events: seq<AppEvent>): (seq<seq<AppPacket>>, seq<AppPacket>)
    decreases |events|
  {
    if events == [] then (queues, [])
    else
      var (waiting, taken) := AppRun(queues, events[..|events| - 1]);
      match events[|events| - 1]
      case Queued(k, app) => (if k < |waiting| then waiting[k := waiting[k] + [app]] else waiting, taken)
      case Served(n) =>
        var m := Min(n, |DueApps(waiting)|);
        (Taken(waiting, m), taken + DueApps(waiting)[..m])
  }

  /** The packets of one name. */
  function Under(apps: seq<AppPacket>, name: seq<byte>): seq<AppPacket> {
    if apps == [] then []
    else (if apps[0].name == name then [apps[0]] else []) + Under(apps[1..], name)
  }

  /** The packets queued under name k. */
  function QueuedUnder(events: seq<AppEvent>, k: nat): seq<AppPacket> {
    if events == [] then []
    else
      var (init, last) := (QueuedUnder(events[..|events| - 1], k), events[|events| - 1]);
      if last.Queued? && last.k == k then init + [last.app] else init
  }

  /** Every name has a queue of its own, which may be empty. */
  predicate Keyed(names: seq<seq<byte>>, queues: seq<seq<AppPacket>>) {
    && |names| == |queues| && (forall i, j :: 0 <= i < j < |names| ==> names[i] != names[j])
    && forall i :: 0 <= i < |queues| ==> AllNamed(queues[i], names[i])
  }

  predicate AllNamed(apps: seq<AppPacket>, name: seq<byte>) {
    forall j :: 0 <= j < |apps| ==> apps[j].name == name
  }

  predicate EventsKeyed(names: seq<seq<byte>>, events: seq<AppEvent>) {
    forall i :: 0 <= i < |events| && events[i].Queued? ==>
      events[i].k < |names| && events[i].app.name == names[events[i].k]
  }

  lemma {:induction false} UnderConcat(a: seq<AppPacket>, b: seq<AppPacket>, name: seq<byte>)
    ensures Under(a + b, name) == Under(a, name) + Under(b, name)
  {
    if a == [] {
      assert a + b == b;
    } else {
      assert (a + b)[0] == a[0] && (a + b)[1..] == a[1..] + b;
      UnderConcat(a[1..], b, name);
    }
  }

  function FirstDue(queue: seq<AppPacket>): seq<AppPacket> {
    if queue == [] then [] else [queue[0]]
  }

  lemma {:induction false} DueCons(queues: seq<seq<AppPacket>>)
    requires queues != []
    ensures DueApps(queues) == FirstDue(queues[0]) + DueApps(queues[1..])
  {
    var n := |queues| - 1;
    if n == 0 {
      assert queues[..0] == [] && queues[1..] == [];
      assert DueApps(queues) == DueApps([]) + FirstDue(queues[0]);
    } else {
      DueCons(queues[..n]);
      assert queues[..n][1..] == queues[1..][..n - 1];
    }
  }

  lemma KeyedTail(names: seq<seq<byte>>, queues: seq<seq<AppPacket>>)
    requires Keyed(names, queues) && queues != []
    ensures Keyed(names[1..], queues[1..])
  {
    hide AllNamed;
    assert forall i :: 0 <= i < |queues| - 1 ==> names[1..][i] == names[i + 1] && queues[1..][i] == queues[i + 1];
  }

  /** What is due under other names is not due under this one. */
  lemma {:induction false} NotDueUnder(names: seq<seq<byte>>, queues: seq<seq<AppPacket>>, m: nat, name: seq<byte>)
    requires Keyed(names, queues) && name !in names && m <= |DueApps(queues)|
    ensures Under(DueApps(queues)[..m], name) == []
    decreases |queues|
  {
    if queues != [] {
      var (due, rest) := (DueApps(queues), DueApps(queues[1..]));
      DueCons(queues);
      KeyedTail(names, queues);
      assert AllNamed(queues[0], names[0]);
      if queues[0] == [] {
        assert due == rest;
        NotDueUnder(names[1..], queues[1..], m, name);
      } else if m > 0 {
        assert due[..m][0] == queues[0][0] && due[..m][1..] == rest[..m - 1];
        NotDueUnder(names[1..], queues[1..], m - 1, name);
      }
    }
  }

  /** How many of the n first due packets come from the first queue. */
  function FromFirst(queue: seq<AppPacket>, n: nat): nat {
    if queue == [] || n == 0 then 0 else 1
  }

  lemma TakenCons(queues: seq<seq<AppPacket>>, n: nat)
    requires queues != [] && n <= |DueApps(queues)|
    ensures var f := FromFirst(queues[0], n);
            && Taken(queues, n) == [queues[0][f..]] + Taken(queues[1..], n - f)
            && n - f <= |DueApps(queues[1..])|
            && DueApps(queues)[..n] == FirstDue(queues[0])[..f] + DueApps(queues[1..])[..n - f]
  {
    hide DueApps;
    DueCons(queues);
    assert queues == [queues[0]] + queues[1..];
    if n == 0 {
      NothingToTake(queues[1..]);
    }
  }

  lemma NothingToTake(queues: seq<seq<AppPacket>>)
    ensures Taken(queues, 0) == queues
  {}

  lemma KeyedHead(names: seq<seq<byte>>, queues: seq<seq<AppPacket>>, k: nat)
    requires Keyed(names, queues) && 0 < k < |names|
    ensures names[0] != names[k] && names[1..][k - 1] == names[k]
  {}

  lemma FirstName(names: seq<seq<byte>>, queues: seq<seq<AppPacket>>)
    requires Keyed(names, queues) && queues != []
    ensures |names| == |queues| && names[0] !in names[1..] && AllNamed(queues[0], names[0])
  {}

  /** A report takes the oldest packet of some names, and leaves all else in its queue. */
  lemma {:induction false} TakesTheOldest(names: seq<seq<byte>>, queues: seq<seq<AppPacket>>, m: nat, k: nat)
    requires Keyed(names, queues) && k < |names| == |queues| && m <= |DueApps(queues)|
    ensures |Taken(queues, m)| == |queues|
    ensures Under(DueApps(queues)[..m], names[k]) + Taken(queues, m)[k] == queues[k]
    decreases |queues|
  {
    hide Keyed, Taken, DueApps, Under, AllNamed;
    var (f, name) := (FromFirst(queues[0], m), names[k]);
    TakenCons(queues, m);
    var rest := DueApps(queues[1..])[..m - f];
    KeyedTail(names, queues);
    FirstName(names, queues);
    UnderConcat(FirstDue(queues[0])[..f], rest, name);
    UnderFirst(queues[0], names[0], name, f);
    if k == 0 {
      NotDueUnder(names[1..], queues[1..], m - f, name);
      TakenSize(queues[1..], m - f);
    } else {
      KeyedHead(names, queues, k);
      TakesTheOldest(names[1..], queues[1..], m - f, k - 1);
    }
  }

  /** One packet is due under each name that has one waiting, and it is the oldest. */
  lemma {:induction false} OneIsDue(names: seq<seq<byte>>, queues: seq<seq<AppPacket>>, k: nat)
    requires Keyed(names, queues) && k < |names| == |queues|
    ensures Under(DueApps(queues), names[k]) == if queues[k] == [] then [] else [queues[k][0]]
    decreases |queues|
  {
    hide Keyed, DueApps, Under, AllNamed;
    var (first, rest) := (FirstDue(queues[0]), DueApps(queues[1..]));
    DueCons(queues);
    KeyedTail(names, queues);
    FirstName(names, queues);
    UnderConcat(first, rest, names[k]);
    UnderFirst(queues[0], names[0], names[k], |first|);
    assert first[..|first|] == first;
    if k == 0 {
      assert rest[..|rest|] == rest;
      NotDueUnder(names[1..], queues[1..], |rest|, names[0]);
    } else {
      KeyedHead(names, queues, k);
      OneIsDue(names[1..], queues[1..], k - 1);
    }
  }

  lemma {:induction false} TakenSize(queues: seq<seq<AppPacket>>, n: nat)
    ensures |Taken(queues, n)| == |queues|
  {
    if queues != [] && n != 0 {
      TakenSize(queues[1..], if queues[0] == [] then n else n - 1);
    }
  }

  lemma UnderFirst(queue: seq<AppPacket>, own: seq<byte>, name: seq<byte>, f: nat)
    requires AllNamed(queue, own) && f <= |FirstDue(queue)|
    ensures Under(FirstDue(queue)[..f], name) == if name == own then queue[..f] else []
  {
    if f > 0 {
      assert queue[0].name == own && FirstDue(queue)[..f] == [queue[0]] == queue[..f];
      assert Under([queue[0]][1..], name) == [];
    }
  }

  lemma KeyedAfterTaking(names: seq<seq<byte>>, queues: seq<seq<AppPacket>>, m: nat)
    requires Keyed(names, queues) && m <= |DueApps(queues)|
    ensures Keyed(names, Taken(queues, m))
  {
    forall k | 0 <= k < |names|
      ensures |Taken(queues, m)| == |queues| && AllNamed(Taken(queues, m)[k], names[k])
    {
      TakesTheOldest(names, queues, m, k);
      SuffixNamed(Under(DueApps(queues)[..m], names[k]), Taken(queues, m)[k], names[k]);
      assert AllNamed(queues[k], names[k]);
    }
    if names == [] {
      assert Taken(queues, m) == queues;
    }
  }

  lemma SuffixNamed(a: seq<AppPacket>, b: seq<AppPacket>, name: seq<byte>)
    requires AllNamed(a + b, name)
    ensures AllNamed(b, name)
  {
    assert forall j :: 0 <= j < |b| ==> b[j] == (a + b)[|a| + j];
  }

  /** Over any number of reports, with packets queued at any time between them: the packets taken
      of each name, followed by those still waiting, are the ones queued under it, in this order. So
      every packet is taken at most once, and none before one queued earlier under its name. */
  lemma {:induction false} AppsGoInOrder(names: seq<seq<byte>>, queues: seq<seq<AppPacket>>, events: seq<AppEvent>,
                                         k: nat)
    requires Keyed(names, queues) && EventsKeyed(names, events) && k < |names|
    ensures var (waiting, taken) := AppRun(queues, events);
            |names| == |queues| == |waiting| && Keyed(names, waiting) &&
            Under(taken, names[k]) + waiting[k] == queues[k] + QueuedUnder(events, k)
  {
    hide Keyed, Taken, DueApps, Under;
    KeyedSizes(names, queues);
    if events == [] {
      NothingTaken(names, queues, k);
    } else {
      var (init, last) := (events[..|events| - 1], events[|events| - 1]);
      AppsGoInOrder(names, queues, init, k);
      var (waiting, taken) := AppRun(queues, init);
      match last
      case Queued(i, app) =>
        QueuesOne(names, waiting, i, app);
        AssociateApps(Under(taken, names[k]), waiting[k], [app]);
        AssociateApps(queues[k], QueuedUnder(init, k), [app]);
      case Served(n) =>
        var m := Min(n, |DueApps(waiting)|);
        KeyedAfterTaking(names, waiting, m);
        TakenSize(waiting, m);
        TakesTheOldest(names, waiting, m, k);
        UnderConcat(taken, DueApps(waiting)[..m], names[k]);
        AssociateApps(Under(taken, names[k]), Under(DueApps(waiting)[..m], names[k]), Taken(waiting, m)[k]);
    }
  }

  lemma KeyedSizes(names: seq<seq<byte>>, queues: seq<seq<AppPacket>>)
    requires Keyed(names, queues)
    ensures |names| == |queues|
  {}

  lemma NothingTaken(names: seq<seq<byte>>, queues: seq<seq<AppPacket>>, k: nat)
    requires k < |names| == |queues|
    ensures Under([], names[k]) + queues[k] == queues[k] + []
  {}

  lemma QueuesOne(names: seq<seq<byte>>, queues: seq<seq<AppPacket>>, k: nat, app: AppPacket)
    requires Keyed(names, queues) && k < |names| && app.name == names[k]
    ensures Keyed(names, queues[k := queues[k] + [app]])
  {}

  lemma AssociateApps(a: seq<AppPacket>, b: seq<AppPacket>, c: seq<AppPacket>)
    ensures a + b + c == a + (b + c)
  {}

  method WriteNextApp(frame: array<byte>, ptr: nat, ssrc: u32, apps: seq<AppPacket>, n: nat, ghost out: seq<byte>)
    returns (ok: bool, next: nat)
    requires n < |apps| && AppsAccepted(apps, n) && |apps[n].name| == APP_NAME_SIZE
    requires Holds(frame, out + AppsBytes(ssrc, apps, n)) && ptr == |out| + AppsSize(apps, n)
    requires |out| + AppsSize(apps, n + 1) <= frame.Length
    modifies frame
    ensures ok <==> AppsAccepted(apps, n + 1)
    ensures ok ==> next == |out| + AppsSize(apps, n + 1) && Holds(frame, out + AppsBytes(ssrc, apps, n + 1))
  {
    ok, next := WriteApp(frame, ptr, ssrc, apps[n], out + AppsBytes(ssrc, apps, n));
    if ok {
      Associate(out, AppsBytes(ssrc, apps, n), PacketBytes(App(ssrc, apps[n])));
    }
  }

  /** How many of the due packets are taken from their queues, if n of them have been written:
      those up to the first one that is refused, which is taken too. */
  function AppsTried(apps: seq<AppPacket>, n: nat): (r: nat)
    requires n <= |apps|
    ensures r <= |apps|
    decreases |apps| - n
  {
    if n == |apps| then n
    else if HeaderAccepts(AppPacketSize(|apps[n].payload|)) then AppsTried(apps, n + 1)
    else n + 1
  }

  method WriteApps(frame: array<byte>, start: nat, ssrc: u32, apps: seq<AppPacket>, ghost out: seq<byte>)
    returns (ok: bool, ptr: nat, taken: nat)
    requires Holds(frame, out) && start == |out| && start + AppsSize(apps, |apps|) <= frame.Length
    requires forall i :: 0 <= i < |apps| ==> |apps[i].name| == APP_NAME_SIZE
    modifies frame
    ensures taken == AppsTried(apps, 0) && (ok <==> AppsAccepted(apps, |apps|))
    ensures ok ==> taken == |apps| && ptr == start + AppsSize(apps, taken) &&
                   Holds(frame, out + AppsBytes(ssrc, apps, taken))
  {
    hide Holds, HeaderAccepts, PacketBytes;
    ok, ptr, taken := true, start, 0;
    NothingAfter(out);
    while taken < |apps|
      invariant ok && taken <= |apps| && AppsAccepted(apps, taken) && ptr == start + AppsSize(apps, taken)
      invariant Holds(frame, out + AppsBytes(ssrc, apps, taken)) && AppsTried(apps, 0) == AppsTried(apps, taken)
    {
      AppsPrefix(apps, taken + 1, |apps|);
      ok, ptr := WriteNextApp(frame, ptr, ssrc, apps, taken, out);
      taken := taken + 1;
      if !ok {
        return;
      }
    }
  }

  /** All of them are taken if all are written; else the last one taken is the first refused. */
  lemma {:induction false} TriedIsExact(apps: seq<AppPacket>, n: nat)
    requires n <= |apps| && AppsAccepted(apps, n) && forall i :: 0 <= i < |apps| ==> |apps[i].name| == APP_NAME_SIZE
    ensures var k := AppsTried(apps, n);
            && (AppsAccepted(apps, |apps|) ==> k == |apps|)
            && (!AppsAccepted(apps, |apps|) ==> n < k && AppsAccepted(apps, k - 1) && !AppsAccepted(apps, k))
    decreases |apps| - n
  {
    hide HeaderAccepts;
    if n < |apps| && HeaderAccepts(AppPacketSize(|apps[n].payload|)) {
      TriedIsExact(apps, n + 1);
    }
  }

  lemma NothingAfter(out: seq<byte>)
    ensures out + [] == out
  {}

  /** The SDES packet can be written: it fits its header and names us. */
  predicate SdesAccepted(items: seq<Item>) {
    HeaderAccepts(SdesPacketSize(items)) && HasCname(items)
  }

  predicate RestAccepted(items: seq<Item>, apps: seq<AppPacket>, byes: seq<u32>) {
    HeaderAccepts(SdesPacketSize(items)) && AppsAccepted(apps, |apps|) &&
    (byes == [] || HeaderAccepts(ByePacketSize(byes)))
  }

  /** The octets after the report. */
  function RestBytes(sdes: Packet, ssrc: u32, apps: seq<AppPacket>, byes: seq<u32>): seq<byte>
    requires Writable(sdes) && AppsAccepted(apps, |apps|) && (byes != [] ==> Writable(Bye(byes)))
  {
    PacketBytes(sdes) + AppsBytes(ssrc, apps, |apps|) + (if byes == [] then [] else PacketBytes(Bye(byes)))
  }

  lemma PlannedEncoded(ssrc: u32, info: Option<SenderInfo>, blocks: seq<ReportBlock>, count: byte, items: seq<Item>,
                       apps: seq<AppPacket>, byes: seq<u32>)
    requires Writable(Report(ssrc, info, blocks)) && Writable(Sdes(count, ssrc, items))
    requires AppsAccepted(apps, |apps|) && (byes != [] ==> Writable(Bye(byes)))
    requires AllWritable(Planned(ssrc, info, blocks, count, items, apps, byes))
    ensures Encoded(Planned(ssrc, info, blocks, count, items, apps, byes)) ==
            [PacketBytes(Report(ssrc, info, blocks)), PacketBytes(Sdes(count, ssrc, items))] +
            AppsEncoded(ssrc, apps) + (if byes == [] then [] else [PacketBytes(Bye(byes))])
  {}

  /** A planned report is the concatenation of its parts. */
  lemma PlannedBytes(ssrc: u32, info: Option<SenderInfo>, blocks: seq<ReportBlock>, count: byte, items: seq<Item>,
                     apps: seq<AppPacket>, byes: seq<u32>)
    requires Writable(Report(ssrc, info, blocks)) && Writable(Sdes(count, ssrc, items))
    requires AppsAccepted(apps, |apps|) && (byes != [] ==> Writable(Bye(byes)))
    requires AllWritable(Planned(ssrc, info, blocks, count, items, apps, byes))
    ensures CompoundBytes(Planned(ssrc, info, blocks, count, items, apps, byes)) ==
            PacketBytes(Report(ssrc, info, blocks)) + RestBytes(Sdes(count, ssrc, items), ssrc, apps, byes)
  {
    var ps := Planned(ssrc, info, blocks, count, items, apps, byes);
    var (report, sdes) := (PacketBytes(Report(ssrc, info, blocks)), PacketBytes(Sdes(count, ssrc, items)));
    var tail := if byes == [] then [] else [PacketBytes(Bye(byes))];
    PlannedEncoded(ssrc, info, blocks, count, items, apps, byes);
    PartsConcat(report, sdes, AppsEncoded(ssrc, apps), tail);
    AppsFlatten(ssrc, apps, |apps|);
    assert AppsEncoded(ssrc, apps)[..|apps|] == AppsEncoded(ssrc, apps);
    if byes != [] { FlattenOne(tail[0]); }
  }

  lemma PartsConcat(a: seq<byte>, b: seq<byte>, c: seq<seq<byte>>, d: seq<seq<byte>>)
    ensures Flatten([a, b] + c + d) == a + (b + Flatten(c) + Flatten(d))
  {
    FlattenConcat([a, b] + c, d);
    FlattenConcat([a, b], c);
    assert [a, b] == [a] + [b];
    FlattenSnoc([a], b);
    FlattenOne(a);
    Associate(a, b, Flatten(c));
    Associate(a, b + Flatten(c), Flatten(d));
  }

  lemma BothAccepted(a: seq<Packet>, b: seq<Packet>)
    ensures AllAccepted(a + b) <==> AllAccepted(a) && AllAccepted(b)
    ensures AllWritable(a + b) <==> AllWritable(a) && AllWritable(b)
  {
    hide HeaderAccepts, SizeOf, Writable;
    var ps := a + b;
    assert forall i :: 0 <= i < |a| ==> ps[i] == a[i];
    assert forall i :: 0 <= i < |b| ==> ps[|a| + i] == b[i];
  }

  lemma OneAccepted(p: Packet)
    ensures AllAccepted([p]) <==> HeaderAccepts(SizeOf(p))
    ensures AllWritable([p]) <==> Writable(p)
  {
    hide HeaderAccepts, SizeOf, Writable;
    assert [p][0] == p;
  }

  lemma NoneAccepted()
    ensures AllAccepted([]) && AllWritable([])
  {}

  lemma AppsAreAccepted(ssrc: u32, apps: seq<AppPacket>)
    requires forall i :: 0 <= i < |apps| ==> |apps[i].name| == APP_NAME_SIZE
    ensures AllAccepted(AppPackets(ssrc, apps)) <==> AppsAccepted(apps, |apps|)
    ensures AllWritable(AppPackets(ssrc, apps)) <==> AppsAccepted(apps, |apps|)
  {
    hide HeaderAccepts, AppPacketSize;
    assert forall i :: 0 <= i < |apps| ==> AppPackets(ssrc, apps)[i] == App(ssrc, apps[i]);
  }

  /** The size of every planned packet fits its header exactly if that of the variable ones does. */
  lemma PlannedAccepted(ssrc: u32, info: Option<SenderInfo>, blocks: seq<ReportBlock>, count: byte, items: seq<Item>,
                        apps: seq<AppPacket>, byes: seq<u32>)
    requires |blocks| < 32 && forall i :: 0 <= i < |apps| ==> |apps[i].name| == APP_NAME_SIZE
    requires count < 32 && GoodItems(items)
    ensures AllAccepted(Planned(ssrc, info, blocks, count, items, apps, byes)) <==>
            RestAccepted(items, apps, byes)
    ensures AllAccepted(Planned(ssrc, info, blocks, count, items, apps, byes)) ==>
            AllWritable(Planned(ssrc, info, blocks, count, items, apps, byes))
  {
    hide AllAccepted, AllWritable, HeaderAccepts, SdesPacketSize, ReportSize, AppsAccepted;
    var head := [Report(ssrc, info, blocks), Sdes(count, ssrc, items)];
    var tail := if byes == [] then [] else [Bye(byes)];
    ReportIsWritable(ssrc, info, blocks);
    BothAccepted(head + AppPackets(ssrc, apps), tail);
    BothAccepted(head, AppPackets(ssrc, apps));
    BothAccepted([head[0]], [head[1]]);
    assert head == [head[0]] + [head[1]];
    OneAccepted(head[0]);
    OneAccepted(head[1]);
    OneAccepted(Bye(byes));
    NoneAccepted();
    AppsAreAccepted(ssrc, apps);
  }

  lemma PlannedOutcome(ssrc: u32, info: Option<SenderInfo>, blocks: seq<ReportBlock>, count: byte, items: seq<Item>,
                       apps: seq<AppPacket>, byes: seq<u32>)
    requires |blocks| < 32 && forall i :: 0 <= i < |apps| ==> |apps[i].name| == APP_NAME_SIZE
    requires count < 32 && GoodItems(items)
    ensures var ps := Planned(ssrc, info, blocks, count, items, apps, byes);
            var (report, sdes) := (Packet.Report(ssrc, info, blocks), Sdes(count, ssrc, items));
            && (AllAccepted(ps) <==> RestAccepted(items, apps, byes))
            && (AllAccepted(ps) ==>
                  AllWritable(ps) && Writable(report) && Writable(sdes) && (byes != [] ==> Writable(Bye(byes))) &&
                  CompoundBytes(ps) == PacketBytes(report) + RestBytes(sdes, ssrc, apps, byes))
  {
    PlannedAccepted(ssrc, info, blocks, count, items, apps, byes);
    ReportIsWritable(ssrc, info, blocks);
    if RestAccepted(items, apps, byes) {
      PlannedBytes(ssrc, info, blocks, count, items, apps, byes);
    }
  }

  /** Everything after the report. */
  method WriteRest(frame: array<byte>, start: nat, count: nat, ssrc: u32, items: seq<Item>, apps: seq<AppPacket>,
                   byes: seq<u32>, ghost out: seq<byte>)
    returns (ok: bool, taken: nat, byesDone: bool)
    requires Holds(frame, out) && start == |out| && start % 4 == 0 && count < 32 && GoodItems(items)
    requires forall i :: 0 <= i < |apps| ==> |apps[i].name| == APP_NAME_SIZE
    requires frame.Length == start + SdesPacketSize(items) + AppsSize(apps, |apps|) +
                             (if byes == [] then 0 else ByePacketSize(byes))
    modifies frame
    ensures ok <==> HasCname(items) && RestAccepted(items, apps, byes)
    ensures taken == (if SdesAccepted(items) then AppsTried(apps, 0) else 0)
    ensures byesDone <==> SdesAccepted(items) && AppsAccepted(apps, |apps|)
    ensures ok ==> frame[..] == out + RestBytes(Sdes(count, ssrc, items), ssrc, apps, byes)
  {
    hide AppsTried, PacketBytes, AppsSize, HasCname;
    var ptr;
    taken, byesDone := 0, false;
    ghost var sdes := Sdes(count, ssrc, items);
    ok, ptr := WriteSdes(frame, start, count, ssrc, items, out);
    if !ok {
      return;
    }
    ok, ptr, taken := WriteApps(frame, ptr, ssrc, apps, out + PacketBytes(sdes));
    if !ok {
      return;
    }
    byesDone := true;
    Associate(out, PacketBytes(sdes), AppsBytes(ssrc, apps, |apps|));
    ghost var done := PacketBytes(sdes) + AppsBytes(ssrc, apps, |apps|);
    if byes != [] {
      ok, ptr := WriteBye(frame, ptr, byes, out + done);
      if !ok {
        return;
      }
      Associate(out, done, PacketBytes(Bye(byes)));
    } else {
      assert RestBytes(sdes, ssrc, apps, byes) == done;
    }
  }

  /** The index of the first CNAME item, or the number of items. */
  function FirstCname(items: seq<Item>): (k: nat)
    ensures k <= |items| && forall i :: 0 <= i < k ==> items[i].kind != SDES_CNAME
    ensures k < |items| ==> items[k].kind == SDES_CNAME
  {
    if items == [] || items[0].kind == SDES_CNAME then 0 else 1 + FirstCname(items[1..])
  }

  /** The first n items except those of the invalid kind 0 that precede the first CNAME. */
  function Kept(items: seq<Item>, n: nat): (r: seq<Item>)
    requires n <= |items|
    ensures GoodItems(items) ==> GoodItems(r)
  {
    if n == 0 then []
    else if n - 1 < FirstCname(items) && items[n - 1].kind == 0 then Kept(items, n - 1)
    else Kept(items, n - 1) + [items[n - 1]]
  }

  lemma {:induction false} KeepsCname(items: seq<Item>, n: nat)
    requires FirstCname(items) < n <= |items|
    ensures HasCname(Kept(items, n))
  {
    var r := Kept(items, n);
    if n - 1 == FirstCname(items) {
      assert r[|r| - 1].kind == SDES_CNAME;
    } else {
      KeepsCname(items, n - 1);
      var i :| 0 <= i < |Kept(items, n - 1)| && Kept(items, n - 1)[i].kind == SDES_CNAME;
      assert r[i].kind == SDES_CNAME;
    }
  }

  /** None of the items i.. up to n is of the invalid kind 0. */
  predicate Kinded(items: seq<Item>, i: nat, n: nat)
    requires n <= |items|
  {
    forall k :: i <= k < n ==> items[k].kind != 0
  }

  lemma {:induction false} KeptKinds(items: seq<Item>, n: nat)
    requires n <= |items|
    ensures Kinded(Kept(items, n), 0, |Kept(items, n)|) <==> Kinded(items, FirstCname(items), n)
  {
    if n != 0 {
      KeptKinds(items, n - 1);
      var before := Kept(items, n - 1);
      if n - 1 >= FirstCname(items) || items[n - 1].kind != 0 {
        KindedSnoc(before, items[n - 1]);
      }
    }
  }

  lemma KindedSnoc(items: seq<Item>, item: Item)
    ensures Kinded(items + [item], 0, |items| + 1) <==> Kinded(items, 0, |items|) && item.kind != 0
  {
    assert (items + [item])[|items|] == item;
    assert forall k :: 0 <= k < |items| ==> (items + [item])[k] == items[k];
  }

  lemma KindedCons(item: Item, items: seq<Item>)
    ensures Kinded([item] + items, 0, |items| + 1) <==> item.kind != 0 && Kinded(items, 0, |items|)
  {
    assert forall k :: 0 <= k < |items| ==> ([item] + items)[k + 1] == items[k];
    assert ([item] + items)[0] == item;
  }

  lemma NamedItems(items: seq<Item>, cname: Item)
    requires cname.kind == SDES_CNAME
    ensures var ours := (if HasCname(items) then [] else [cname]) + Kept(items, |items|);
            HasCname(ours) && (Kinded(ours, 0, |ours|) <==> Kinded(items, FirstCname(items), |items|))
  {
    KeptKinds(items, |items|);
    if HasCname(items) {
      KeepsCname(items, |items|);
      assert [] + Kept(items, |items|) == Kept(items, |items|);
    } else {
      assert ([cname] + Kept(items, |items|))[0] == cname;
      KindedCons(cname, Kept(items, |items|));
    }
  }

  /** Every source has been reported on. */
  ghost predicate Settled(before: map<u32, Participant>, after: map<u32, Participant>) {
    after.Keys == before.Keys && forall s :: s in before ==> after[s] == Reported(before[s])
  }

  /** How many APP packets a report takes from their queues, and whether it takes the BYE. */
  function AppsGone(items: seq<Item>, queues: seq<seq<AppPacket>>): nat {
    if SdesAccepted(items) then AppsTried(DueApps(queues), 0) else 0
  }

  predicate ByesGone(items: seq<Item>, queues: seq<seq<AppPacket>>) {
    SdesAccepted(items) && AppsAccepted(DueApps(queues), |DueApps(queues)|)
  }

  /** A report whose SDES packet is refused takes nothing from the queues. */
  lemma NothingGone(items: seq<Item>, queues: seq<seq<AppPacket>>)
    ensures !HasCname(items) ==> !ByesGone(items, queues) && Taken(queues, AppsGone(items, queues)) == queues
  {}

  datatype Result = NotNeeded | Failed | Sent(frame: seq<byte>)

  class Reporter {
    const srtp: bool
    const ssrc: u32
    const table: Rtcp
    const cnameItem: Item
    var sender: bool
    var sentRtpPacket: bool
    var ourItems: seq<Item>
    var appQueues: seq<seq<AppPacket>>
    var byeSsrcs: seq<u32>

    ghost predicate Valid()
      reads this, table
    {
      table.Valid() && GoodItems([cnameItem]) && GoodItems(ourItems) && NamesAreGood(appQueues)
    }

    constructor (srtp: bool, ssrc: u32, cname: seq<byte>)
      ensures Valid() && fresh(table) && this.srtp == srtp && this.ssrc == ssrc
      ensures ourItems == if |cname| > 255 then [] else [Item(SDES_CNAME, |cname|, cname)]
      ensures table.View() == EMPTY_SESSION && byeSsrcs == [] && appQueues == [] && !sender && !sentRtpPacket
    {
      this.srtp, this.ssrc := srtp, ssrc;
      this.table := new Rtcp();
      var item := if |cname| > 255 then Item(0, 0, []) else Item(SDES_CNAME, |cname|, cname);
      cnameItem := item;
      ourItems := if |cname| > 255 then [] else [item];
      sender, sentRtpPacket := false, false;
      appQueues, byeSsrcs := [], [];
    }

    /** An SDES packet always names us. Its items can be read back, none of them being taken for
        the end of the chunk, exactly if no item of kind 0 follows the first CNAME. */
    method SetSdesItems(items: seq<Item>)
      requires Valid() && GoodItems(items)
      modifies this`ourItems
      ensures Valid()
      ensures ourItems == (if HasCname(items) then [] else [cnameItem]) + Kept(items, |items|)
      ensures cnameItem.kind == SDES_CNAME ==>
                HasCname(ourItems) &&
                (Kinded(ourItems, 0, |ourItems|) <==> Kinded(items, FirstCname(items), |items|))
    {
      var hasCname, toIgnore: set<nat>, i := false, {}, 0;
      while i < |items| && !hasCname
        invariant i <= |items|
        invariant hasCname ==> i > 0 && FirstCname(items) == i - 1 && i <= |items|
        invariant !hasCname ==> i <= FirstCname(items)
        invariant forall j :: j in toIgnore <==> 0 <= j < i && items[j].kind == 0
        invariant hasCname ==> items[i - 1].kind != 0
      {
        if items[i].kind == 0 {
          toIgnore := toIgnore + {i};
        } else if items[i].kind == SDES_CNAME {
          hasCname := true;
        }
        i := i + 1;
      }
      assert hasCname <==> HasCname(items);
      var newItems := if hasCname then [] else [cnameItem];
      ghost var head := newItems;
      for j := 0 to |items|
        invariant newItems == head + Kept(items, j)
      {
        if j !in toIgnore {
          newItems := newItems + [items[j]];
        }
      }
      ourItems := newItems;
      if cnameItem.kind == SDES_CNAME {
        NamedItems(items, cnameItem);
      }
    }

    /** The sender information the next report will carry, if it is to be an SR. */
    function NextInfo(info: SenderInfo): Option<SenderInfo>
      reads this
    {
      if sender && sentRtpPacket then Some(info) else None
    }

    /** What the next report will consist of. */
    ghost function NextReport(order: seq<u32>, timing: u32 -> Timing, info: SenderInfo): (ps: seq<Packet>)
      requires Valid() && Enumerates(order, table.participants.Keys)
      reads this, table
    {
      Planned(ssrc, NextInfo(info), ReportsOn(table.participants, timing, order, |order|),
              table.numReceivers, ourItems, DueApps(appQueues), byeSsrcs)
    }

    /** The report itself; its blocks settle the interval of the sources they are about. */
    method WriteReport(frame: array<byte>, order: seq<u32>, timing: u32 -> Timing, info: SenderInfo, reports: nat)
      returns (ok: bool, ptr: nat)
      requires table.Valid() && Enumerates(order, table.participants.Keys)
      requires reports == CountHeard(table.participants, order, |order|) < 32
      requires Holds(frame, []) && ReportSize(NextInfo(info).Some?, srtp, reports) <= frame.Length
      modifies this`sentRtpPacket, table`participants, frame
      ensures table.Valid()
      ensures ok <==> !srtp
      ensures ok ==>
                var p := Report(ssrc, old(NextInfo(info)), ReportsOn(old(table.participants), timing, order, |order|));
                Writable(p) && ptr == SizeOf(p) && Holds(frame, PacketBytes(p)) &&
                sentRtpPacket == (old(sentRtpPacket) && !sender)
      ensures ok ==> Settled(old(table.participants), table.participants)
      ensures !ok ==> unchanged(this) && unchanged(table)
    {
      var senderInfo := NextInfo(info);
      ok, ptr := WriteHead(frame, senderInfo, srtp, reports, ssrc);
      if !ok {
        return;
      }
      CountsReports(table.participants, timing, order, |order|);
      if senderInfo.Some? {
        sentRtpPacket := false;
      }
      var blocks := table.CollectReports(order, timing);
      ReportIsWritable(ssrc, senderInfo, blocks);
      ptr := WriteBlocks(frame, ptr, blocks, HeadBytes(senderInfo, reports, ssrc));
    }

    /** A report is sent exactly if there is someone to report on, SRTP is off, our SDES items
        name us, and every packet has a size its header can state. The frame, sized in advance,
        is then filled to its last octet with exactly the packets planned. */
    method GenerateReport(order: seq<u32>, timing: u32 -> Timing, info: SenderInfo) returns (r: Result)
      requires Valid() && Enumerates(order, table.participants.Keys)
      modifies this, table
      ensures Valid() && unchanged(`ourItems, `sender)
      ensures r.NotNeeded? <==> old(table.participants) == map[]
      ensures r.Sent? <==> old(table.participants) != map[] && !srtp && HasCname(ourItems) &&
                           AllAccepted(old(NextReport(order, timing, info)))
      ensures r.Sent? ==> AllWritable(old(NextReport(order, timing, info))) &&
                          r.frame == CompoundBytes(old(NextReport(order, timing, info)))
      ensures r.NotNeeded? || srtp ==> unchanged(this) && unchanged(table)
      ensures !r.NotNeeded? && !srtp ==>
                sentRtpPacket == (old(sentRtpPacket) && !sender) &&
                Settled(old(table.participants), table.participants) &&
                appQueues == Taken(old(appQueues), AppsGone(ourItems, old(appQueues))) &&
                byeSsrcs == if ByesGone(ourItems, old(appQueues)) then [] else old(byeSsrcs)
      ensures !HasCname(ourItems) ==> unchanged(`appQueues) && unchanged(`byeSsrcs)
    {
      hide Taken, AppsTried, DueApps, RestBytes, PacketBytes, Planned, ReportsOn, AllAccepted, AllWritable, Settled,
        AppsGone, ByesGone, HeaderAccepts, NamesAreGood, GoodItems, RestAccepted, CompoundBytes;
      if table.participants == map[] {
        return NotNeeded;
      }
      var frame, reports := AllocateFrame(order);
      ReportOutcome(order, timing, info);
      NothingGone(ourItems, appQueues);
      var ok := FillFrame(frame, order, timing, info, reports);
      r := if ok then Sent(frame[..]) else Failed;
    }

    method FillFrame(frame: array<byte>, order: seq<u32>, timing: u32 -> Timing, info: SenderInfo, reports: nat)
      returns (ok: bool)
      requires Valid() && Enumerates(order, table.participants.Keys)
      requires reports == CountHeard(table.participants, order, |order|) < 32
      requires Holds(frame, [])
      requires frame.Length == ReportSize(NextInfo(info).Some?, srtp, reports) + SdesPacketSize(ourItems) +
                               AppsSize(DueApps(appQueues), |DueApps(appQueues)|) +
                               (if byeSsrcs == [] then 0 else ByePacketSize(byeSsrcs))
      modifies this`sentRtpPacket, this`appQueues, this`byeSsrcs, table`participants, frame
      ensures Valid()
      ensures ok <==> !srtp && HasCname(ourItems) && RestAccepted(ourItems, old(DueApps(appQueues)), old(byeSsrcs))
      ensures ok ==>
                var p := Packet.Report(ssrc, old(NextInfo(info)),
                                       ReportsOn(old(table.participants), timing, order, |order|));
                Writable(p) && frame[..] == PacketBytes(p) + RestBytes(Sdes(table.numReceivers, ssrc, ourItems), ssrc,
                                                                       old(DueApps(appQueues)), old(byeSsrcs))
      ensures srtp ==> unchanged(this) && unchanged(table)
      ensures !srtp ==> sentRtpPacket == (old(sentRtpPacket) && !sender) &&
                        Settled(old(table.participants), table.participants) &&
                        appQueues == Taken(old(appQueues), AppsGone(ourItems, old(appQueues))) &&
                        byeSsrcs == if ByesGone(ourItems, old(appQueues)) then [] else old(byeSsrcs)
    {
      hide Taken, AppsTried, DueApps, AppsGone, ByesGone, Settled, ReportsOn, CountHeard, PacketBytes, RestBytes;
      ghost var report := Packet.Report(ssrc, NextInfo(info), ReportsOn(table.participants, timing, order, |order|));
      CountsReports(table.participants, timing, order, |order|);
      var ptr;
      ok, ptr := WriteReport(frame, order, timing, info, reports);
      if ok {
        ok := FinishReport(frame, ptr, report);
      }
    }

    /** Everything after the report; what has been written is no longer due. */
    method FinishReport(frame: array<byte>, ptr: nat, ghost report: Packet) returns (ok: bool)
      requires Valid() && Writable(report) && Holds(frame, PacketBytes(report)) && ptr == SizeOf(report)
      requires frame.Length == ptr + SdesPacketSize(ourItems) + AppsSize(DueApps(appQueues), |DueApps(appQueues)|) +
                               (if byeSsrcs == [] then 0 else ByePacketSize(byeSsrcs))
      modifies this`appQueues, this`byeSsrcs, frame
      ensures Valid()
      ensures ok <==> HasCname(ourItems) && RestAccepted(ourItems, old(DueApps(appQueues)), old(byeSsrcs))
      ensures ok ==> frame[..] == PacketBytes(report) + RestBytes(Sdes(table.numReceivers, ssrc, ourItems), ssrc,
                                                                  old(DueApps(appQueues)), old(byeSsrcs))
      ensures appQueues == Taken(old(appQueues), AppsGone(ourItems, old(appQueues)))
      ensures byeSsrcs == if ByesGone(ourItems, old(appQueues)) then [] else old(byeSsrcs)
    {
      var taken, byesDone;
      var due := DueApps(appQueues);
      DueNames(appQueues);
      ok, taken, byesDone :=
        WriteRest(frame, ptr, table.numReceivers, ssrc, ourItems, due, byeSsrcs, PacketBytes(report));
      TakenNames(appQueues, taken);
      appQueues := Taken(appQueues, taken);
      if byesDone {
        byeSsrcs := [];
      }
    }

    /** A frame of the size the next report will have, and the number of its blocks. */
    method AllocateFrame(order: seq<u32>) returns (frame: array<byte>, reports: nat)
      requires Valid() && Enumerates(order, table.participants.Keys)
      ensures reports == CountHeard(table.participants, order, |order|) < 32
      ensures fresh(frame) && Holds(frame, [])
      ensures frame.Length == ReportSize(sender && sentRtpPacket, srtp, reports) + SdesPacketSize(ourItems) +
                              AppsSize(DueApps(appQueues), |DueApps(appQueues)|) +
                              (if byeSsrcs == [] then 0 else ByePacketSize(byeSsrcs))
    {
      reports := CountReports(table.participants, order);
      EnumerationSize(order, table.participants.Keys);
      var appsSize := SizeOfReadyAppPackets(DueApps(appQueues));
      var sdesSize := GetSdesPacketSize(ourItems);
      var size := ReportSize(sender && sentRtpPacket, srtp, reports) + sdesSize + appsSize;
      if byeSsrcs != [] {
        size := size + ByePacketSize(byeSsrcs);
      }
      frame := new byte[size](_ => 0);
    }

    lemma ReportOutcome(order: seq<u32>, timing: u32 -> Timing, info: SenderInfo)
      requires Valid() && Enumerates(order, table.participants.Keys)
      ensures var ps := NextReport(order, timing, info);
              var report := Packet.Report(ssrc, NextInfo(info), ReportsOn(table.participants, timing, order, |order|));
              var sdes := Sdes(table.numReceivers, ssrc, ourItems);
              && SizeOf(report) == ReportSize(sender && sentRtpPacket, false,
                                              CountHeard(table.participants, order, |order|))
              && (AllAccepted(ps) <==> RestAccepted(ourItems, DueApps(appQueues), byeSsrcs))
              && (AllAccepted(ps) ==>
                    AllWritable(ps) && Writable(report) && Writable(sdes) &&
                    (byeSsrcs != [] ==> Writable(Bye(byeSsrcs))) &&
                    CompoundBytes(ps) == PacketBytes(report) + RestBytes(sdes, ssrc, DueApps(appQueues), byeSsrcs))
    {
      var blocks := ReportsOn(table.participants, timing, order, |order|);
      CountsReports(table.participants, timing, order, |order|);
      EnumerationSize(order, table.participants.Keys);
      DueNames(appQueues);
      PlannedOutcome(ssrc, NextInfo(info), blocks, table.numReceivers, ourItems, DueApps(appQueues), byeSsrcs);
    }
  }
}
