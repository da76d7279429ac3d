/**
 * The participant table of src/rtcp.cc: which source a packet is booked to, how sources join
 * and leave, and what generate_report reads from each source into a report block.
 */
module RtcpSession {
  import opened Bytes
  import opened Wrappers
  import opened RtcpTracker

  // ---------- report intervals (RFC 3550 appendix A.3) ----------

  datatype Interval = Interval(expected: u32, received: u32, lost: int, fraction: byte)

  function Min(x: int, y: int): int {
    if x < y then x else y
  }

  /** The loss of an interval in 256ths; the shifted loss is converted to uint32_t before the
      division. */
  function Fraction(expected: u32, lost: int): byte {
    if expected == 0 || lost <= 0 then 0
    else
      var quotient: nat := Wrap32(lost * 256) / expected;
      Min(255, quotient)
  }

  /** The figures for the time since the previous report block about p. */
  function IntervalOf(p: Participant): Interval {
    var expected := Wrap32(Expected(p) - p.expectedPrior);
    var received := Wrap32(p.receivedPkts - p.receivedPrior);
    var lost := Signed32(Wrap32(expected - received));
    Interval(expected, received, lost, Fraction(expected, lost))
  }

  function AfterReport(p: Participant): Participant {
    p.(expectedPrior := Expected(p), receivedPrior := p.receivedPkts, receivedRtpPacket := false)
  }

  lemma QuotientGap(x: nat, d: nat, big: nat)
    requires 0 < d <= big && x < big
    ensures (x + big) / d > x / d
  {
    assert x / d * d <= x;
    assert (x / d + 1) * d <= x + big;
    var q := (x + big) / d;
    assert x + big < (q + 1) * d;
    ProductAtLeast(x / d - q, d);
  }

  lemma SmallRemainder(low: nat, expected: nat)
    requires low < 0x100_0000 && 0x100_0000 <= expected && low <= expected - 0x100_0000
    ensures low * 256 / expected < 255
  {
    var q := low * 256 / expected;
    assert q * expected <= low * 256;
    ProductAtLeast(q - 255, expected);
    assert (q - 255) * expected == q * expected - 255 * expected;
  }

  /** The fraction field is the loss ratio in 256ths, capped at 255, exactly as long as fewer
      than 2^24 packets were lost in the interval; beyond that the shift loses high bits. */
  lemma FractionIsLossRatio(expected: u32, lost: u32)
    requires 0 < lost <= expected
    ensures Fraction(expected, lost) == Min(255, lost * 256 / expected) <==> lost < 0x100_0000
  {
    if lost >= 0x100_0000 {
      var low, high := lost % 0x100_0000, lost / 0x100_0000;
      assert Wrap32(lost * 256) == low * 256;
      assert lost * 256 == low * 256 + high * 0x1_0000_0000;
      QuotientGap(low * 256, expected, high * 0x1_0000_0000);
      SmallRemainder(low, expected);
    }
  }

  /** What a report leaves of a source; one that has sent nothing since the last is skipped. */
  function Reported(p: Participant): Participant {
    if p.receivedRtpPacket then AfterReport(p) else p
  }

  datatype Event = Arrival(sn: u16) | Reporting

  /** Packets and reports on one source. */
  function RunEvents(p: Participant, events: seq<Event>): (Participant, seq<Interval>) {
    if events == [] then (p, [])
    else
      var i := |events| - 1;
      var (q, done) := RunEvents(p, events[..i]);
      match events[i]
      case Arrival(sn) => (Receive(q, sn), done)
      case Reporting => (Reported(q), if q.receivedRtpPacket then done + [IntervalOf(q)] else done)
  }

  function SumExpected(ivs: seq<Interval>): int {
    if ivs == [] then 0 else SumExpected(ivs[..|ivs| - 1]) + ivs[|ivs| - 1].expected
  }

  function SumReceived(ivs: seq<Interval>): int {
    if ivs == [] then 0 else SumReceived(ivs[..|ivs| - 1]) + ivs[|ivs| - 1].received
  }

  function SumLost(ivs: seq<Interval>): int {
    if ivs == [] then 0 else SumLost(ivs[..|ivs| - 1]) + ivs[|ivs| - 1].lost
  }

  lemma SumSnoc(ivs: seq<Interval>, i: Interval)
    ensures SumExpected(ivs + [i]) == SumExpected(ivs) + i.expected
    ensures SumReceived(ivs + [i]) == SumReceived(ivs) + i.received
    ensures SumLost(ivs + [i]) == SumLost(ivs) + i.lost
  {
    assert (ivs + [i])[..|ivs|] == ivs;
  }

  /** The sums of the reported intervals, modulo 2^32, are the figures of the last report. */
  ghost predicate Telescopes(p: Participant, q: Participant, ivs: seq<Interval>) {
    ExpectedTelescopes(p, q, ivs) && ReceivedTelescopes(p, q, ivs) && LostTelescopes(ivs)
  }

  ghost predicate ExpectedTelescopes(p: Participant, q: Participant, ivs: seq<Interval>) {
    Wrap32(SumExpected(ivs)) == Wrap32(q.expectedPrior - p.expectedPrior)
  }

  ghost predicate ReceivedTelescopes(p: Participant, q: Participant, ivs: seq<Interval>) {
    Wrap32(SumReceived(ivs)) == Wrap32(q.receivedPrior - p.receivedPrior)
  }

  ghost predicate LostTelescopes(ivs: seq<Interval>) {
    Wrap32(SumLost(ivs)) == Wrap32(SumExpected(ivs) - SumReceived(ivs))
  }

  lemma WrapSum(a: int, a': int, b: int, b': int)
    requires Wrap32(a) == Wrap32(a') && Wrap32(b) == Wrap32(b')
    ensures Wrap32(a + b) == Wrap32(a' + b')
  {
    WrapAdd(a, b);
    WrapAdd(a', b);
    WrapAdd(b, a');
    WrapAdd(b', a');
  }

  lemma IntervalWraps(q: Participant)
    ensures var i := IntervalOf(q);
            && Wrap32(i.expected) == Wrap32(Expected(q) - q.expectedPrior)
            && Wrap32(i.received) == Wrap32(q.receivedPkts - q.receivedPrior)
            && Wrap32(i.lost) == Wrap32(i.expected - i.received)
  {
    var expected := Expected(q) - q.expectedPrior;
    var received := q.receivedPkts - q.receivedPrior;
    WrapAdd(expected, 0);
    WrapAdd(received, 0);
    SignedWraps(Wrap32(Wrap32(expected) - Wrap32(received)));
  }

  lemma SignedWraps(x: u32)
    ensures Wrap32(Signed32(x)) == x
  {}

  lemma WrapChain(sum: int, from: int, mid: int, add: int, to: int)
    requires Wrap32(sum) == Wrap32(mid - from) && Wrap32(add) == Wrap32(to - mid)
    ensures Wrap32(sum + add) == Wrap32(to - from)
  {
    WrapSum(sum, mid - from, add, to - mid);
  }

  lemma LostChain(lost: int, e: int, r: int, l: int, e': int, r': int)
    requires Wrap32(lost) == Wrap32(e - r) && Wrap32(l) == Wrap32(e' - r')
    ensures Wrap32(lost + l) == Wrap32((e + e') - (r + r'))
  {
    WrapSum(lost, e - r, l, e' - r');
  }

  lemma ExpectedStep(p: Participant, q: Participant, ivs: seq<Interval>)
    requires ExpectedTelescopes(p, q, ivs)
    ensures ExpectedTelescopes(p, AfterReport(q), ivs + [IntervalOf(q)])
  {
    SumSnoc(ivs, IntervalOf(q));
    IntervalWraps(q);
    WrapChain(SumExpected(ivs), p.expectedPrior, q.expectedPrior, IntervalOf(q).expected, Expected(q));
  }

  lemma ReceivedStep(p: Participant, q: Participant, ivs: seq<Interval>)
    requires ReceivedTelescopes(p, q, ivs)
    ensures ReceivedTelescopes(p, AfterReport(q), ivs + [IntervalOf(q)])
  {
    SumSnoc(ivs, IntervalOf(q));
    IntervalWraps(q);
    WrapChain(SumReceived(ivs), p.receivedPrior, q.receivedPrior, IntervalOf(q).received, q.receivedPkts);
  }

  lemma LostStep(q: Participant, ivs: seq<Interval>)
    requires LostTelescopes(ivs)
    ensures LostTelescopes(ivs + [IntervalOf(q)])
  {
    var i := IntervalOf(q);
    SumSnoc(ivs, i);
    IntervalWraps(q);
    LostChain(SumLost(ivs), SumExpected(ivs), SumReceived(ivs), i.lost, i.expected, i.received);
  }

  lemma {:induction false} IntervalsTelescope(p: Participant, events: seq<Event>)
    ensures var (q, ivs) := RunEvents(p, events); Telescopes(p, q, ivs)
  {
    if events != [] {
      var i := |events| - 1;
      IntervalsTelescope(p, events[..i]);
      var (q, ivs) := RunEvents(p, events[..i]);
      ExpectedStep(p, q, ivs);
      ReceivedStep(p, q, ivs);
      LostStep(q, ivs);
      assert events[i].Arrival? ==> Receive(q, events[i].sn).(
        expectedPrior := q.expectedPrior, receivedPrior := q.receivedPrior) == Receive(q, events[i].sn);
    }
  }

  lemma ReportSettles(p: Participant, events: seq<Event>)
    requires RunEvents(p, events).0.receivedRtpPacket
    ensures var q := RunEvents(p, events + [Reporting]).0;
            q.expectedPrior == Expected(q) && q.receivedPrior == q.receivedPkts
  {
    assert (events + [Reporting])[..|events|] == events;
    assert RunEvents(p, events + [Reporting]).0 == AfterReport(RunEvents(p, events).0);
  }

  lemma NewSourceIsUnreported(first: u16)
    ensures var p := NewSource(first); p.expectedPrior == 0 && p.receivedPrior == 0
  {}

  /** After any run of a new source that ends in a report, the reported intervals add up to all
      packets expected, and the reported losses to those expected but not received. */
  lemma ReportsAddUp(first: u16, events: seq<Event>)
    requires RunEvents(NewSource(first), events).0.receivedRtpPacket
    ensures var (q, ivs) := RunEvents(NewSource(first), events + [Reporting]);
            Wrap32(SumExpected(ivs)) == Expected(q) &&
            Wrap32(SumLost(ivs)) == Wrap32(Expected(q) - q.receivedPkts)
  {
    var p := NewSource(first);
    IntervalsTelescope(p, events + [Reporting]);
    ReportSettles(p, events);
    NewSourceIsUnreported(first);
    var (q, ivs) := RunEvents(p, events + [Reporting]);
    TelescopedFigures(p, q, ivs);
  }

  lemma TelescopedFigures(p: Participant, q: Participant, ivs: seq<Interval>)
    requires Telescopes(p, q, ivs) && p.expectedPrior == 0 && p.receivedPrior == 0
    ensures Wrap32(SumExpected(ivs)) == q.expectedPrior
    ensures Wrap32(SumLost(ivs)) == Wrap32(q.expectedPrior - q.receivedPrior)
  {
    WrapDifference(SumExpected(ivs), q.expectedPrior, SumReceived(ivs), q.receivedPrior);
  }

  lemma WrapDifference(a: int, a': int, b: int, b': int)
    requires Wrap32(a) == Wrap32(a') && Wrap32(b) == Wrap32(b')
    ensures Wrap32(a - b) == Wrap32(a' - b')
  {}

  // ---------- sums without wrap-around ----------

  /** No report finds fewer packets expected, or received, than the one before. */
  ghost predicate NeverFallsBack(p: Participant, events: seq<Event>) {
    forall i :: 0 <= i < |events| ==> ForwardAt(p, events, i)
  }

  ghost predicate ForwardAt(p: Participant, events: seq<Event>, i: nat)
    requires i < |events|
  {
    var q := RunEvents(p, events[..i]).0;
    events[i].Reporting? && q.receivedRtpPacket ==>
      q.expectedPrior <= Expected(q) && q.receivedPrior <= q.receivedPkts
  }

  /** The sums of the reported figures against the change of the totals. */
  ghost predicate AtLeast(p: Participant, q: Participant, ivs: seq<Interval>) {
    SumExpected(ivs) >= q.expectedPrior - p.expectedPrior && SumReceived(ivs) >= q.receivedPrior - p.receivedPrior
  }

  ghost predicate Exact(p: Participant, q: Participant, ivs: seq<Interval>) {
    SumExpected(ivs) == q.expectedPrior - p.expectedPrior && SumReceived(ivs) == q.receivedPrior - p.receivedPrior
  }

  lemma ArrivalKeepsPriors(q: Participant, sn: u16)
    ensures Receive(q, sn).expectedPrior == q.expectedPrior && Receive(q, sn).receivedPrior == q.receivedPrior
  {}

  lemma WrapAtLeast(x: int)
    requires -0x1_0000_0000 < x < 0x1_0000_0000
    ensures Wrap32(x) >= x && (Wrap32(x) == x <==> x >= 0)
  {}

  lemma ReportExact(p: Participant, q: Participant, ivs: seq<Interval>)
    requires AtLeast(p, q, ivs)
    ensures var (r, jvs) := (AfterReport(q), ivs + [IntervalOf(q)]);
            AtLeast(p, r, jvs) &&
            (Exact(p, r, jvs) <==>
             Exact(p, q, ivs) && q.expectedPrior <= Expected(q) && q.receivedPrior <= q.receivedPkts)
  {
    hide Expected, Fraction, Signed32, SumExpected, SumReceived, SumLost, Wrap32;
    SumSnoc(ivs, IntervalOf(q));
    WrapAtLeast(Expected(q) - q.expectedPrior);
    WrapAtLeast(q.receivedPkts - q.receivedPrior);
  }

  lemma FallsBackPrefix(p: Participant, events: seq<Event>, i: nat)
    requires i + 1 == |events|
    ensures NeverFallsBack(p, events) <==> NeverFallsBack(p, events[..i]) && ForwardAt(p, events, i)
  {
    hide RunEvents;
    forall j | 0 <= j < i
      ensures ForwardAt(p, events, j) <==> ForwardAt(p, events[..i], j)
    {
      assert events[..i][..j] == events[..j];
    }
  }

  /** The reported intervals add up to the change of the totals, without wrapping, if and only if
      no report finds a total fallen back, as a re-sync or the end of probation can make it. */
  lemma {:induction false} SumsAreExact(p: Participant, events: seq<Event>)
    ensures var (q, ivs) := RunEvents(p, events);
            AtLeast(p, q, ivs) && (Exact(p, q, ivs) <==> NeverFallsBack(p, events))
  {
    hide AtLeast, Exact, NeverFallsBack, Expected, AfterReport, IntervalOf, Receive;
    if events == [] {
      NothingSummed(p);
    } else {
      var i := |events| - 1;
      SumsAreExact(p, events[..i]);
      FallsBackPrefix(p, events, i);
      var (q, ivs) := RunEvents(p, events[..i]);
      ReportExact(p, q, ivs);
      if events[i].Arrival? {
        ArrivalKeepsPriors(q, events[i].sn);
        SamePriors(p, q, Receive(q, events[i].sn), ivs);
      }
    }
  }

  lemma NothingSummed(p: Participant)
    ensures AtLeast(p, p, []) && Exact(p, p, []) && NeverFallsBack(p, [])
  {}

  lemma SamePriors(p: Participant, q: Participant, r: Participant, ivs: seq<Interval>)
    requires r.expectedPrior == q.expectedPrior && r.receivedPrior == q.receivedPrior
    ensures AtLeast(p, r, ivs) <==> AtLeast(p, q, ivs)
    ensures Exact(p, r, ivs) <==> Exact(p, q, ivs)
  {}

  /** Packets by their true numbers, and reports. */
  datatype TrueEvent = TrueArrival(t: int) | TrueReport

  function AsEvent(e: TrueEvent): Event {
    if e.TrueReport? then Reporting else Arrival(Low16(e.t))
  }

  function OnWire(events: seq<TrueEvent>): (r: seq<Event>)
    ensures |r| == |events|
    ensures forall i :: 0 <= i < |r| ==> r[i] == AsEvent(events[i])
  {
    seq(|events|, i requires 0 <= i < |events| => AsEvent(events[i]))
  }

  function Numbers(events: seq<TrueEvent>): (ts: seq<int>)
    ensures |ts| <= |events|
  {
    if events == [] then []
    else
      var i := |events| - 1;
      if events[i].TrueReport? then Numbers(events[..i]) else Numbers(events[..i]) + [events[i].t]
  }

  /** Between reports, packets in the window lead from p at number b to q at number m; no figure
      reported so far is above the current one. */
  ghost predicate Follows(p: Participant, b: int, q: Participant, m: int, n: nat) {
    Tracked(p, b, q, m, n) && b <= m && q.expectedPrior <= m - b + 1 && q.receivedPrior <= n + 2
  }

  lemma FollowsReport(p: Participant, b: int, q: Participant, m: int, n: nat)
    requires AtBase(p, b, 2) && Follows(p, b, q, m, n) && m < b + 0x7fff_ffff && n < 0x7fff_fffe
    ensures Expected(q) == m - b + 1 && q.receivedPkts == n + 2 && Follows(p, b, Reported(q), m, n)
  {
    FiguresFromBase(p, b, 2, q, m, n);
  }

  lemma FollowsArrival(p: Participant, b: int, q: Participant, m: int, n: nat, t: int)
    requires Follows(p, b, q, m, n) && InWindow(t - m)
    ensures Follows(p, b, Receive(q, Low16(t)), Max(m, t), n + 1)
  {
    hide Receive, Tracked, Low16;
    TrackedStarts(p, b, q, m, n);
    TrackedStep(q, m, t);
    TrackedCompose(p, b, q, m, n, Receive(q, Low16(t)), Max(m, t));
    ArrivalKeepsPriors(q, Low16(t));
  }

  lemma TrackedStarts(p: Participant, b: int, q: Participant, m: int, n: nat)
    requires Tracked(p, b, q, m, n)
    ensures q.probation == 0 && q.maxSeq == Low16(m)
  {}

  lemma MaxOfSnoc(b: int, ts: seq<int>, t: int)
    ensures MaxOf(b, ts + [t]) == Max(MaxOf(b, ts), t)
    ensures StaysInWindow(b, ts + [t]) ==> StaysInWindow(b, ts) && InWindow(t - MaxOf(b, ts))
  {
    assert (ts + [t])[..|ts|] == ts;
  }

  /** The run is one of a validated source whose packets stay in the window. */
  ghost predicate Orderly(p: Participant, b: int, events: seq<TrueEvent>) {
    && AtBase(p, b, 2) && p.expectedPrior == 0 && p.receivedPrior == 0 && StaysInWindow(b, Numbers(events))
    && MaxOf(b, Numbers(events)) - b < 0x7fff_ffff && |Numbers(events)| < 0x7fff_fffe
  }

  lemma OrderlyPrefix(p: Participant, b: int, events: seq<TrueEvent>)
    requires events != [] && Orderly(p, b, events)
    ensures Orderly(p, b, events[..|events| - 1])
  {
    var last := events[|events| - 1];
    if last.TrueArrival? {
      MaxOfSnoc(b, Numbers(events[..|events| - 1]), last.t);
    }
  }

  lemma {:induction false} OrderlyFollows(p: Participant, b: int, events: seq<TrueEvent>)
    requires Orderly(p, b, events)
    ensures Follows(p, b, RunEvents(p, OnWire(events)).0, MaxOf(b, Numbers(events)), |Numbers(events)|)
    ensures NeverFallsBack(p, OnWire(events))
  {
    hide Follows, Expected, NeverFallsBack, StaysInWindow, MaxOf, Receive;
    if events == [] {
      StartFollows(p, b);
    } else {
      var i := |events| - 1;
      OrderlyPrefix(p, b, events);
      OrderlyFollows(p, b, events[..i]);
      assert OnWire(events)[..i] == OnWire(events[..i]);
      FallsBackPrefix(p, OnWire(events), i);
      var (q, m, n) := (RunEvents(p, OnWire(events[..i])).0, MaxOf(b, Numbers(events[..i])), |Numbers(events[..i])|);
      if events[i].TrueReport? {
        OrderlyReport(p, b, q, m, n);
      } else {
        MaxOfSnoc(b, Numbers(events[..i]), events[i].t);
        FollowsArrival(p, b, q, m, n, events[i].t);
      }
    }
  }

  lemma StartFollows(p: Participant, b: int)
    requires AtBase(p, b, 2) && p.expectedPrior == 0 && p.receivedPrior == 0
    ensures Follows(p, b, p, MaxOf(b, []), 0) && NeverFallsBack(p, [])
  {}

  lemma OrderlyReport(p: Participant, b: int, q: Participant, m: int, n: nat)
    requires AtBase(p, b, 2) && Follows(p, b, q, m, n) && m < b + 0x7fff_ffff && n < 0x7fff_fffe
    ensures Follows(p, b, Reported(q), m, n)
    ensures q.expectedPrior <= Expected(q) && q.receivedPrior <= q.receivedPkts
  {
    FollowsReport(p, b, q, m, n);
  }

  /** The reported losses are those expected but not received. */
  ghost predicate LossesBalance(ivs: seq<Interval>) {
    SumLost(ivs) == SumExpected(ivs) - SumReceived(ivs)
  }

  lemma SmallWrap(x: nat)
    requires x < 0x8000_0000
    ensures Wrap32(x) == x
  {}

  lemma SmallDifference(e: nat, r: nat)
    requires e < 0x8000_0000 && r < 0x8000_0000
    ensures Signed32(Wrap32(e - r)) == e - r
  {}

  lemma IntervalBalances(q: Participant)
    requires q.expectedPrior <= Expected(q) < 0x8000_0000 && q.receivedPrior <= q.receivedPkts < 0x8000_0000
    ensures IntervalOf(q).lost == IntervalOf(q).expected - IntervalOf(q).received
  {
    hide Expected, Fraction, Wrap32, Signed32;
    SmallWrap(Expected(q) - q.expectedPrior);
    SmallWrap(q.receivedPkts - q.receivedPrior);
    SmallDifference(Expected(q) - q.expectedPrior, q.receivedPkts - q.receivedPrior);
  }

  lemma LossBalances(p: Participant, b: int, q: Participant, m: int, n: nat, ivs: seq<Interval>)
    requires AtBase(p, b, 2) && Follows(p, b, q, m, n) && m < b + 0x7fff_ffff && n < 0x7fff_fffe && LossesBalance(ivs)
    ensures LossesBalance(ivs + [IntervalOf(q)])
  {
    hide IntervalOf, Expected, SumExpected, SumReceived, SumLost;
    FollowsReport(p, b, q, m, n);
    FollowsPriors(p, b, q, m, n);
    IntervalBalances(q);
    SumSnoc(ivs, IntervalOf(q));
  }

  lemma FollowsPriors(p: Participant, b: int, q: Participant, m: int, n: nat)
    requires Follows(p, b, q, m, n)
    ensures q.expectedPrior <= m - b + 1 && q.receivedPrior <= n + 2
  {}

  lemma {:induction false} OrderlyBalances(p: Participant, b: int, events: seq<TrueEvent>)
    requires Orderly(p, b, events)
    ensures LossesBalance(RunEvents(p, OnWire(events)).1)
  {
    hide Follows, NeverFallsBack, StaysInWindow, MaxOf, Receive, LossesBalance, IntervalOf;
    if events == [] {
      NothingLost();
    } else {
      var i := |events| - 1;
      OrderlyPrefix(p, b, events);
      OrderlyFollows(p, b, events[..i]);
      OrderlyBalances(p, b, events[..i]);
      assert OnWire(events)[..i] == OnWire(events[..i]);
      var (q, ivs) := RunEvents(p, OnWire(events[..i]));
      LossBalances(p, b, q, MaxOf(b, Numbers(events[..i])), |Numbers(events[..i])|, ivs);
    }
  }

  lemma NothingLost()
    ensures LossesBalance([])
  {}

  /** On such a run that ends in a report, the packets expected add up to those from the base to
      the highest number, and the losses to the gaps less the surplus and the packet counted
      before probation, without any wrap-around. */
  lemma ReportsAddUpExactly(p: Participant, b: int, events: seq<TrueEvent>)
    requires Orderly(p, b, events) && RunEvents(p, OnWire(events)).0.receivedRtpPacket
    ensures var (q, ivs) := RunEvents(p, OnWire(events + [TrueReport]));
            var ts := Numbers(events);
            SumExpected(ivs) == MaxOf(b, ts) - b + 1 && SumReceived(ivs) == |ts| + 2 &&
            SumLost(ivs) == |Missing(b, ts)| - Surplus(b, ts) - 1
  {
    hide Follows, Expected, NeverFallsBack, StaysInWindow, MaxOf, RunEvents, Missing, Surplus;
    var all := events + [TrueReport];
    assert all[..|events|] == events;
    assert Numbers(all) == Numbers(events);
    OrderlyFollows(p, b, events);
    OrderlyFollows(p, b, all);
    OrderlyBalances(p, b, all);
    SumsAreExact(p, OnWire(all));
    assert OnWire(all) == OnWire(events) + [Reporting];
    ReportSettles(p, OnWire(events));
    FollowsReport(p, b, RunEvents(p, OnWire(all)).0, MaxOf(b, Numbers(events)), |Numbers(events)|);
    MissingSize(b, Numbers(events));
    SurplusIs(b, Numbers(events));
  }

  lemma SurplusIs(b: int, ts: seq<int>)
    ensures Surplus(b, ts) == |ts| - |Seen(b, ts)|
  {}

  // ---------- what a report says ----------

  function ArrivalsIn(events: seq<Event>): (seqs: seq<u16>)
    ensures |seqs| <= |events|
  {
    if events == [] then []
    else
      var (init, last) := (ArrivalsIn(events[..|events| - 1]), events[|events| - 1]);
      if last.Arrival? then init + [last.sn] else init
  }

  /** The same in all but what reports settle. */
  predicate SameFigures(q: Participant, r: Participant) {
    q == r.(expectedPrior := q.expectedPrior, receivedPrior := q.receivedPrior,
            receivedRtpPacket := q.receivedRtpPacket)
  }

  lemma UpdatesSameFigures(q: Participant, r: Participant, sn: u16)
    requires SameFigures(q, r)
    ensures UpdateSeq(q, sn).1 == UpdateSeq(r, sn).1 && SameFigures(UpdateSeq(q, sn).0, UpdateSeq(r, sn).0)
  {}

  lemma CountsSameFigures(q: Participant, r: Participant)
    requires SameFigures(q, r)
    ensures SameFigures(Count(q), Count(r))
  {}

  lemma ReceivesSameFigures(q: Participant, r: Participant, sn: u16)
    requires SameFigures(q, r)
    ensures SameFigures(Receive(q, sn), Receive(r, sn))
  {
    hide UpdateSeq, Count;
    UpdatesSameFigures(q, r, sn);
    CountsSameFigures(UpdateSeq(q, sn).0, UpdateSeq(r, sn).0);
  }

  lemma SettlingKeepsFigures(q: Participant, r: Participant)
    requires SameFigures(q, r)
    ensures SameFigures(Reported(q), r)
  {}

  /** Reports do not change the figures of a source. */
  lemma {:induction false} ReportsOnlySettle(p: Participant, events: seq<Event>)
    ensures SameFigures(RunEvents(p, events).0, Run(p, ArrivalsIn(events)))
  {
    hide SameFigures, Receive, Reported, IntervalOf;
    if events == [] {
      FiguresOfItself(p);
    } else {
      var (init, last) := (events[..|events| - 1], events[|events| - 1]);
      ReportsOnlySettle(p, init);
      var (q, r) := (RunEvents(p, init).0, Run(p, ArrivalsIn(init)));
      match last
      case Arrival(sn) =>
        RunSnoc(p, ArrivalsIn(init), sn);
        ReceivesSameFigures(q, r, sn);
      case Reporting => SettlingKeepsFigures(q, r);
    }
  }

  lemma FiguresOfItself(p: Participant)
    ensures SameFigures(p, p)
  {}

  /** Event i is a packet that was counted, and no report came after it. */
  predicate CountedAt(p: Participant, events: seq<Event>, i: nat)
    requires i < |events|
  {
    && events[i].Arrival? && UpdateSeq(RunEvents(p, events[..i]).0, events[i].sn).1 == Ok
    && NoReportFrom(events, i)
  }

  predicate NoReportFrom(events: seq<Event>, i: nat) {
    forall j :: i <= j < |events| ==> events[j].Arrival?
  }

  lemma FlagStep(q: Participant, e: Event)
    ensures e.Arrival? ==> (Receive(q, e.sn).receivedRtpPacket <==>
                            UpdateSeq(q, e.sn).1 == Ok || q.receivedRtpPacket)
    ensures !Reported(q).receivedRtpPacket
  {
    hide Expected;
  }

  /** A source has a block in the next report exactly if a packet of it has been counted since the
      last one. */
  lemma {:induction false} HeardSinceReport(p: Participant, events: seq<Event>)
    ensures RunEvents(p, events).0.receivedRtpPacket <==>
            (exists i :: 0 <= i < |events| && CountedAt(p, events, i)) ||
            (p.receivedRtpPacket && NoReportFrom(events, 0))
  {
    hide UpdateSeq, Receive, Reported, IntervalOf;
    if events != [] {
      var n := |events| - 1;
      var init := events[..n];
      HeardSinceReport(p, init);
      FlagStep(RunEvents(p, init).0, events[n]);
      forall i | 0 <= i < n
        ensures CountedAt(p, events, i) <==> CountedAt(p, init, i) && events[n].Arrival?
      {
        assert init[..i] == events[..i];
      }
      assert CountedAt(p, events, n) <==> events[n].Arrival? && UpdateSeq(RunEvents(p, init).0, events[n].sn).1 == Ok;
    }
  }

  /** What is new since the last report. */
  datatype News = News(expected: nat, packets: nat)

  /** By how much the highest true number has risen since the last report, and how many packets
      have come; before the first one, base b and the two packets counted up to it are new too. */
  function NewsOf(b: int, events: seq<TrueEvent>): News {
    if events == [] then News(1, 2)
    else
      var (init, last) := (events[..|events| - 1], events[|events| - 1]);
      match last
      case TrueReport => News(0, 0)
      case TrueArrival(t) =>
        var (news, m) := (NewsOf(b, init), MaxOf(b, Numbers(init)));
        News(news.expected + (Max(m, t) - m), news.packets + 1)
  }

  /** What the next report about q goes by. */
  ghost predicate HasNews(q: Participant, expected: int, packets: int, news: News) {
    && q.expectedPrior == expected - news.expected && q.receivedPrior == packets - news.packets
    && (q.receivedRtpPacket <==> news.packets > 0) && (news.packets == 0 ==> news.expected == 0)
  }

  lemma NewsOfReport(q: Participant, expected: int, packets: int, news: News)
    requires HasNews(q, expected, packets, news) && Expected(q) == expected && q.receivedPkts == packets
    ensures HasNews(Reported(q), expected, packets, News(0, 0))
  {}

  lemma NewsOfArrival(q: Participant, m: int, t: int, expected: int, packets: int, news: News)
    requires HasNews(q, expected, packets, news)
    requires q.probation == 0 && q.maxSeq == Low16(m) && InWindow(t - m)
    ensures HasNews(Receive(q, Low16(t)), expected + (Max(m, t) - m), packets + 1,
                    News(news.expected + (Max(m, t) - m), news.packets + 1))
  {
    hide Expected, Low16;
    UpdateInWindow(q, m, t);
    FlagStep(q, Arrival(Low16(t)));
    ArrivalKeepsPriors(q, Low16(t));
  }

  /** The entry and the news after these events. */
  ghost predicate NewsKept(p: Participant, b: int, events: seq<TrueEvent>) {
    HasNews(RunEvents(p, OnWire(events)).0, MaxOf(b, Numbers(events)) - b + 1, |Numbers(events)| + 2,
            NewsOf(b, events))
  }

  lemma OnWireSnoc(events: seq<TrueEvent>, e: TrueEvent)
    ensures OnWire(events + [e]) == OnWire(events) + [AsEvent(e)] && (events + [e])[..|events|] == events
    ensures Numbers(events + [e]) == if e.TrueReport? then Numbers(events) else Numbers(events) + [e.t]
  {
    assert (events + [e])[..|events|] == events;
  }

  lemma NewsAfterReport(p: Participant, b: int, events: seq<TrueEvent>)
    requires var (q, m, n) := (RunEvents(p, OnWire(events)).0, MaxOf(b, Numbers(events)), |Numbers(events)|);
             AtBase(p, b, 2) && Follows(p, b, q, m, n) && m - b < 0x7fff_ffff && n < 0x7fff_fffe
    requires NewsKept(p, b, events)
    ensures NewsKept(p, b, events + [TrueReport])
  {
    hide HasNews, Follows, Expected, MaxOf, Reported, AtBase, RunEvents, Numbers, OnWire;
    var (q, m, n) := (RunEvents(p, OnWire(events)).0, MaxOf(b, Numbers(events)), |Numbers(events)|);
    OnWireSnoc(events, TrueReport);
    RunEventsSnoc(p, OnWire(events), Reporting);
    FollowsReport(p, b, q, m, n);
    NewsOfReport(q, m - b + 1, n + 2, NewsOf(b, events));
  }

  lemma NewsAfterArrival(p: Participant, b: int, events: seq<TrueEvent>, t: int)
    requires var (q, m, n) := (RunEvents(p, OnWire(events)).0, MaxOf(b, Numbers(events)), |Numbers(events)|);
             Follows(p, b, q, m, n) && InWindow(t - m)
    requires NewsKept(p, b, events)
    ensures NewsKept(p, b, events + [TrueArrival(t)])
  {
    hide HasNews, Follows, MaxOf, Receive, Low16, RunEvents, InWindow, Numbers, OnWire;
    var (q, m, n) := (RunEvents(p, OnWire(events)).0, MaxOf(b, Numbers(events)), |Numbers(events)|);
    OnWireSnoc(events, TrueArrival(t));
    RunEventsSnoc(p, OnWire(events), Arrival(Low16(t)));
    MaxOfSnoc(b, Numbers(events), t);
    FollowsTracks(p, b, q, m, n);
    NewsOfArrival(q, m, t, m - b + 1, n + 2, NewsOf(b, events));
  }

  lemma {:induction false} OrderlyNews(p: Participant, b: int, events: seq<TrueEvent>)
    requires Orderly(p, b, events) && p.receivedRtpPacket
    ensures NewsKept(p, b, events)
  {
    hide NewsKept, Follows, MaxOf, RunEvents, Numbers, InWindow, Orderly;
    if events == [] {
      NothingNew(p, b);
    } else {
      var init := events[..|events| - 1];
      OrderlyPrefix(p, b, events);
      OrderlyNews(p, b, init);
      OrderlyFollows(p, b, init);
      OrderlyLast(p, b, events);
      OrderlyBound(p, b, init);
      assert events == init + [events[|events| - 1]];
      match events[|events| - 1]
      case TrueReport => NewsAfterReport(p, b, init);
      case TrueArrival(t) => NewsAfterArrival(p, b, init, t);
    }
  }

  lemma OrderlyLast(p: Participant, b: int, events: seq<TrueEvent>)
    requires events != [] && Orderly(p, b, events)
    ensures var (init, last) := (events[..|events| - 1], events[|events| - 1]);
            last.TrueArrival? ==> InWindow(last.t - MaxOf(b, Numbers(init)))
  {
    var (init, last) := (events[..|events| - 1], events[|events| - 1]);
    if last.TrueArrival? {
      MaxOfSnoc(b, Numbers(init), last.t);
    }
  }

  lemma OrderlyBound(p: Participant, b: int, events: seq<TrueEvent>)
    requires Orderly(p, b, events)
    ensures AtBase(p, b, 2) && MaxOf(b, Numbers(events)) - b < 0x7fff_ffff && |Numbers(events)| < 0x7fff_fffe
  {}

  lemma FollowsTracks(p: Participant, b: int, q: Participant, m: int, n: nat)
    requires Follows(p, b, q, m, n)
    ensures q.probation == 0 && q.maxSeq == Low16(m)
  {}

  lemma NothingNew(p: Participant, b: int)
    requires Orderly(p, b, []) && p.receivedRtpPacket
    ensures NewsKept(p, b, [])
  {}

  /** The share of e packets of which r have come, in 256ths. */
  function LossRatio(e: nat, r: nat): nat {
    if r >= e then 0 else Min(255, 256 * (e - r) / e)
  }

  lemma FractionOfNews(q: Participant, expected: u32, packets: u32, news: News)
    requires HasNews(q, expected, packets, news) && Expected(q) == expected < 0x8000_0000
    requires q.receivedPkts == packets < 0x8000_0000 && news.expected - news.packets < 0x100_0000
    requires news.expected <= expected && news.packets <= packets
    ensures IntervalOf(q).fraction == LossRatio(news.expected, news.packets)
  {
    hide Expected, Wrap32, Signed32;
    IntervalBalances(q);
    SmallWrap(news.expected);
    SmallWrap(news.packets);
    if news.packets < news.expected {
      FractionIsLossRatio(news.expected, news.expected - news.packets);
    }
  }

  lemma {:induction false} ArrivalsOnWire(events: seq<TrueEvent>)
    ensures ArrivalsIn(OnWire(events)) == Wire(Numbers(events))
  {
    if events != [] {
      var i := |events| - 1;
      ArrivalsOnWire(events[..i]);
      assert OnWire(events)[..i] == OnWire(events[..i]);
      if events[i].TrueArrival? {
        assert (Numbers(events[..i]) + [events[i].t])[..|Numbers(events[..i])|] == Numbers(events[..i]);
      }
    }
  }

  lemma {:induction false} RunKeepsPriors(p: Participant, seqs: seq<u16>)
    ensures Run(p, seqs).expectedPrior == p.expectedPrior && Run(p, seqs).receivedPrior == p.receivedPrior
    ensures p.receivedRtpPacket ==> Run(p, seqs).receivedRtpPacket
  {
    hide Receive;
    if seqs != [] {
      var i := |seqs| - 1;
      RunKeepsPriors(p, seqs[..i]);
      ArrivalKeepsPriors(Run(p, seqs[..i]), seqs[i]);
      FlagStep(Run(p, seqs[..i]), Arrival(seqs[i]));
    }
  }

  /** A source at the end of its probation, with no report yet. */
  lemma ValidatedStarts(seqs: seq<u16>, b: int)
    requires JustValidated(seqs) && seqs[|seqs| - 1] == Low16(b)
    ensures var p := SourceRun(seqs);
            AtBase(p, b, 2) && p.expectedPrior == 0 && p.receivedPrior == 0 && p.receivedRtpPacket
  {
    ValidatedSource(seqs);
    RunKeepsPriors(NewSource(seqs[0]), seqs[1..]);
    NewSourceIsUnreported(seqs[0]);
  }

  /** What the entry q of a source says, if its true numbers after base b and the reports on it were
      these events: the figures of its next report block by true numbers alone. */
  ghost predicate SaysTrue(q: Participant, b: int, events: seq<TrueEvent>) {
    var (ts, news) := (Numbers(events), NewsOf(b, events));
    && (q.receivedRtpPacket <==> news.packets > 0)
    && q.lostPkts == Max(0, |Missing(b, ts)| - Surplus(b, ts) - 1)
    && q.cycles * RTP_SEQ_MOD + q.maxSeq == Wrap32(Low16(b) + MaxOf(b, ts) - b)
    && (news.expected - news.packets < 0x100_0000 ==> IntervalOf(q).fraction == LossRatio(news.expected, news.packets))
  }

  lemma NewsIsBounded(b: int, events: seq<TrueEvent>)
    ensures NewsOf(b, events).expected <= MaxOf(b, Numbers(events)) - b + 1
    ensures NewsOf(b, events).packets <= |Numbers(events)| + 2
  {
    if events != [] {
      var (init, last) := (events[..|events| - 1], events[|events| - 1]);
      NewsIsBounded(b, init);
      if last.TrueArrival? {
        MaxOfSnoc(b, Numbers(init), last.t);
      }
    }
  }

  ghost predicate Ordered(seqs: seq<u16>, b: int, events: seq<TrueEvent>) {
    && JustValidated(seqs) && seqs[|seqs| - 1] == Low16(b) && StaysInWindow(b, Numbers(events))
    && MaxOf(b, Numbers(events)) - b < 0x7fff_ffff && |Numbers(events)| < 0x7fff_fffe
  }

  lemma OrderedStarts(seqs: seq<u16>, b: int, events: seq<TrueEvent>)
    requires Ordered(seqs, b, events)
    ensures seqs != [] && Orderly(SourceRun(seqs), b, events) && SourceRun(seqs).receivedRtpPacket
  {
    hide Run, RunEvents, StaysInWindow, MaxOf, Numbers, Low16;
    ValidatedStarts(seqs, b);
  }

  lemma TrueFigures(seqs: seq<u16>, b: int, events: seq<TrueEvent>)
    requires Ordered(seqs, b, events)
    ensures var (q, ts) := (RunEvents(SourceRun(seqs), OnWire(events)).0, Numbers(events));
            && Expected(q) == MaxOf(b, ts) - b + 1 && q.receivedPkts == |ts| + 2
            && q.lostPkts == Max(0, |Missing(b, ts)| - Surplus(b, ts) - 1)
            && Extended(q) == Wrap32(Low16(b) + MaxOf(b, ts) - b)
  {
    hide Run, RunEvents, StaysInWindow, MaxOf, Missing, Surplus, Numbers, Low16;
    var (p, ts) := (SourceRun(seqs), Numbers(events));
    ValidatedStarts(seqs, b);
    LossCountsGaps(seqs, b, ts);
    SourceRunConcat(seqs, Wire(ts));
    TracksTrueMaximum(p, b, ts);
    ReportsOnlySettle(p, OnWire(events));
    ArrivalsOnWire(events);
  }

  lemma EntrySaysTrue(seqs: seq<u16>, b: int, events: seq<TrueEvent>)
    requires Ordered(seqs, b, events)
    ensures seqs != [] && SaysTrue(RunEvents(SourceRun(seqs), OnWire(events)).0, b, events)
  {
    hide RunEvents, StaysInWindow, MaxOf, Missing, Surplus, NewsOf, Numbers, Low16, IntervalOf, Orderly, Expected,
      SourceRun, LossRatio;
    var (ts, news) := (Numbers(events), NewsOf(b, events));
    OrderedStarts(seqs, b, events);
    OrderlyNews(SourceRun(seqs), b, events);
    TrueFigures(seqs, b, events);
    NewsIsBounded(b, events);
    if news.expected - news.packets < 0x100_0000 {
      FractionOfNews(RunEvents(SourceRun(seqs), OnWire(events)).0, MaxOf(b, ts) - b + 1, |ts| + 2, news);
    }
  }

  // ---------- the table of participants ----------

  /** The participants, how many have joined, and the sources whose silence is timed, which need
      not be participants. */
  datatype Session = Session(participants: map<u32, Participant>, numReceivers: nat, timers: set<u32>)

  /** An RTP packet. The timer of a source that is not in the table is set even if the source is
      not admitted. */
  function HandleRtp(s: Session, ssrc: u32, sn: u16): (Session, Ret) {
    if ssrc !in s.participants then
      var timers := s.timers + {ssrc};
      if s.numReceivers == MAX_SUPPORTED_PARTICIPANTS then (s.(timers := timers), GenericError)
      else (Session(s.participants[ssrc := NewSource(sn)], s.numReceivers + 1, timers), PktNotHandled)
    else
      var ret := UpdateSeq(s.participants[ssrc], sn).1;
      (s.(participants := s.participants[ssrc := Receive(s.participants[ssrc], sn)]),
       if ret == Ok then PktNotHandled else if ret == NotReady then Ok else ret)
  }

  /** A BYE for a source; one that is not in the table is passed over. */
  function Leave(s: Session, ssrc: u32): Session {
    if ssrc in s.participants then
      s.(participants := s.participants - {ssrc}, timers := s.timers - {ssrc})
    else s
  }

  /** A BYE packet. */
  function LeaveAll(s: Session, ssrcs: seq<u32>): Session {
    if ssrcs == [] then s else Leave(LeaveAll(s, ssrcs[..|ssrcs| - 1]), ssrcs[|ssrcs| - 1])
  }

  lemma LeaveNone(s: Session)
    ensures LeaveAll(s, []) == s
  {}

  lemma LeaveNext(s: Session, ssrcs: seq<u32>, i: nat)
    requires i < |ssrcs|
    ensures LeaveAll(s, ssrcs[..i + 1]) == Leave(LeaveAll(s, ssrcs[..i]), ssrcs[i])
  {
    assert ssrcs[..i + 1][..i] == ssrcs[..i];
  }

  lemma {:induction false} LeaveAllRemoves(s: Session, ssrcs: seq<u32>)
    ensures LeaveAll(s, ssrcs).participants == s.participants - (set x | x in ssrcs)
    ensures LeaveAll(s, ssrcs).timers == s.timers - (set x | x in ssrcs && x in s.participants)
    ensures LeaveAll(s, ssrcs).numReceivers == s.numReceivers
  {
    if ssrcs != [] {
      var (init, last) := (ssrcs[..|ssrcs| - 1], ssrcs[|ssrcs| - 1]);
      LeaveAllRemoves(s, init);
      assert ssrcs == init + [last];
    }
  }

  /** An SR, RR, SDES or APP packet from ssrc. An unknown sender joins without probation. Whether
      or not it could, the handler of an SR, and any handler that has no hook to call, goes on to
      use its entry of the table (stored); None if that entry is null. */
  function HandleAnnounced(s: Session, ssrc: u32, stored: bool): Option<Session> {
    if ssrc in s.participants then Some(s)
    else if s.numReceivers != MAX_SUPPORTED_PARTICIPANTS then
      Some(s.(participants := s.participants[ssrc := ZERO_STATS], numReceivers := s.numReceivers + 1))
    else if stored then None
    else Some(s)
  }

  /** A timer has run out: the source is freed, and None if it is not in the table. */
  function TimeOut(s: Session, ssrc: u32): Option<Session> {
    if ssrc !in s.timers then Some(s)
    else if ssrc !in s.participants then None
    else Some(s.(participants := s.participants - {ssrc}, timers := s.timers - {ssrc}))
  }

  /** A report has been sent. */
  function ReportAll(s: Session): Session {
    s.(participants := map k | k in s.participants :: Reported(s.participants[k]))
  }

  datatype SessionEvent =
    | Heard(ssrc: u32, sn: u16)              // an RTP packet
    | Walked(ssrc: u32)                      // a packet of a compound headed by this SSRC
    | Announced(ssrc: u32, stored: bool)     // an SR, RR, SDES or APP packet is handled
    | Left(ssrc: u32)                        // a BYE is handled
    | TimedOut(ssrc: u32)                    // a timer runs out
    | Reports                                // generate_report

  function Step(s: Session, e: SessionEvent): Option<Session> {
    match e
    case Heard(ssrc, sn) => Some(HandleRtp(s, ssrc, sn).0)
    case Walked(ssrc) => Some(s.(timers := s.timers + {ssrc}))
    case Announced(ssrc, stored) => HandleAnnounced(s, ssrc, stored)
    case Left(ssrc) => Some(Leave(s, ssrc))
    case TimedOut(ssrc) => TimeOut(s, ssrc)
    case Reports => Some(ReportAll(s))
  }

  function SessionRun(s: Session, events: seq<SessionEvent>): Option<Session> {
    if events == [] then Some(s)
    else
      match SessionRun(s, events[..|events| - 1])
      case None => None
      case Some(t) => Step(t, events[|events| - 1])
  }

  const EMPTY_SESSION := Session(map[], 0, {})

  // ---------- what a run leaves of each source ----------

  predicate About(e: SessionEvent, x: u32) {
    !e.Reports? && e.ssrc == x
  }

  /** A source asks to join with each packet that is booked to it while it is not a member. */
  function Asks(events: seq<SessionEvent>): nat
    decreases |events|
  {
    if events == [] then 0
    else
      var (init, e) := (events[..|events| - 1], events[|events| - 1]);
      Asks(init) + (if (e.Heard? || e.Announced?) && !Member(init, e.ssrc) then 1 else 0)
  }

  /** x has joined as one of the first 31, and has neither left nor timed out since. */
  predicate Member(events: seq<SessionEvent>, x: u32)
    decreases |events|
  {
    events != [] &&
    var (init, e) := (events[..|events| - 1], events[|events| - 1]);
    if !About(e, x) || e.Walked? then Member(init, x)
    else if e.Left? then false
    else if e.TimedOut? then Member(init, x) && !Armed(init, x)
    else Member(init, x) || Asks(init) < MAX_SUPPORTED_PARTICIPANTS
  }

  /** A timer runs for x: it has asked to join over RTP or headed an RTCP packet, and has neither
      left as a member nor timed out since. */
  predicate Armed(events: seq<SessionEvent>, x: u32)
    decreases |events|
  {
    events != [] &&
    var (init, e) := (events[..|events| - 1], events[|events| - 1]);
    if !About(e, x) || e.Announced? then Armed(init, x)
    else if e.Walked? then true
    else if e.TimedOut? then false
    else if e.Left? then Armed(init, x) && !Member(init, x)
    else Armed(init, x) || !Member(init, x)
  }

  /** What concerns the figures of a source since it joined: with its first RTP packet, or with an
      RTCP packet. */
  datatype Past = Unheard | Started(first: u16, since: seq<Event>) | Known(since: seq<Event>)

  function Noted(past: Past, e: Event): Past {
    match past
    case Unheard => Unheard
    case Started(first, since) => Started(first, since + [e])
    case Known(since) => Known(since + [e])
  }

  function PastOf(events: seq<SessionEvent>, x: u32): Past {
    if events == [] then Unheard
    else
      var (init, e) := (events[..|events| - 1], events[|events| - 1]);
      Later(PastOf(init, x), Member(init, x), Armed(init, x), e, x)
  }

  function Later(past: Past, member: bool, armed: bool, e: SessionEvent, x: u32): Past {
    if e.Reports? then Noted(past, Reporting)
    else if !About(e, x) then past
    else
      match e
      case Heard(_, sn) => if member then Noted(past, Arrival(sn)) else Started(sn, [])
      case Announced(_, _) => if member then past else Known([])
      case Left(_) => Unheard
      case TimedOut(_) => if armed then Unheard else past
      case Walked(_) => past
  }

  /** The entry of a source on its own. */
  function EntryOf(past: Past): Participant
    requires !past.Unheard?
  {
    RunEvents(if past.Started? then NewSource(past.first) else ZERO_STATS, past.since).0
  }

  lemma RunEventsSnoc(p: Participant, events: seq<Event>, e: Event)
    ensures RunEvents(p, events + [e]).0 ==
            match e
            case Arrival(sn) => Receive(RunEvents(p, events).0, sn)
            case Reporting => Reported(RunEvents(p, events).0)
  {
    hide Receive, Reported, IntervalOf;
    assert (events + [e])[..|events|] == events;
  }

  lemma EntrySnoc(past: Past, e: Event)
    requires !past.Unheard?
    ensures EntryOf(Noted(past, e)) ==
            match e
            case Arrival(sn) => Receive(EntryOf(past), sn)
            case Reporting => Reported(EntryOf(past))
  {
    hide RunEvents, Receive, Reported, NewSource;
    RunEventsSnoc(if past.Started? then NewSource(past.first) else ZERO_STATS, past.since, e);
  }

  lemma NewEntries(sn: u16)
    ensures EntryOf(Started(sn, [])) == NewSource(sn) && EntryOf(Known([])) == ZERO_STATS
  {}

  /** A source in the table has its own entry. */
  ghost predicate EntryKept(s: Session, x: u32, past: Past) {
    x in s.participants ==> past != Unheard && s.participants[x] == EntryOf(past)
  }

  lemma StepKeepsEntry(s: Session, x: u32, past: Past, e: SessionEvent)
    requires EntryKept(s, x, past) && Step(s, e).Some?
    ensures EntryKept(Step(s, e).value, x, Later(past, x in s.participants, x in s.timers, e, x))
  {
    hide EntryOf, UpdateSeq, Receive, Reported, NewSource;
    if e.Heard? {
      NewEntries(e.sn);
      if past != Unheard {
        EntrySnoc(past, Arrival(e.sn));
      }
    } else if e.Reports? && past != Unheard {
      EntrySnoc(past, Reporting);
    } else {
      NewEntries(0);
    }
  }

  /** The table holds the members, and a timer runs for those that Armed says. */
  ghost predicate Accounted(s: Session, x: u32, events: seq<SessionEvent>) {
    && (x in s.participants <==> Member(events, x)) && (x in s.timers <==> Armed(events, x))
    && EntryKept(s, x, PastOf(events, x))
  }

  ghost predicate Joined(s: Session, asks: nat) {
    |s.participants| <= s.numReceivers == Min(MAX_SUPPORTED_PARTICIPANTS, asks)
  }

  lemma SizeWith(m: map<u32, Participant>, x: u32, p: Participant)
    ensures |m[x := p]| == |m| + (if x in m then 0 else 1)
  {
    if x in m {
      assert m[x := p].Keys == m.Keys;
    } else {
      assert m[x := p].Keys == m.Keys + {x};
    }
  }

  lemma SizeWithout(m: map<u32, Participant>, x: u32)
    ensures |m - {x}| <= |m|
  {
    assert (m - {x}).Keys == m.Keys - {x};
  }

  lemma ReportJoins(s: Session, asks: nat)
    requires Joined(s, asks)
    ensures Joined(ReportAll(s), asks)
  {
    hide Reported;
    assert ReportAll(s).participants.Keys == s.participants.Keys;
  }

  lemma HeardJoins(s: Session, asks: nat, x: u32, sn: u16)
    requires Joined(s, asks)
    ensures Joined(HandleRtp(s, x, sn).0, asks + (if x in s.participants then 0 else 1))
  {
    hide UpdateSeq, Receive, NewSource;
    SizeWith(s.participants, x, if x in s.participants then Receive(s.participants[x], sn) else NewSource(sn));
  }

  lemma AnnouncedJoins(s: Session, asks: nat, x: u32, stored: bool)
    requires Joined(s, asks) && HandleAnnounced(s, x, stored).Some?
    ensures Joined(HandleAnnounced(s, x, stored).value, asks + (if x in s.participants then 0 else 1))
  {
    SizeWith(s.participants, x, ZERO_STATS);
  }

  lemma LeaveJoins(s: Session, asks: nat, x: u32)
    requires Joined(s, asks)
    ensures Joined(Leave(s, x), asks) && (TimeOut(s, x).Some? ==> Joined(TimeOut(s, x).value, asks))
  {
    SizeWithout(s.participants, x);
  }

  lemma StepJoins(s: Session, asks: nat, e: SessionEvent)
    requires Joined(s, asks) && Step(s, e).Some?
    ensures Joined(Step(s, e).value,
                   asks + (if (e.Heard? || e.Announced?) && e.ssrc !in s.participants then 1 else 0))
  {
    hide HandleRtp, HandleAnnounced, Leave, TimeOut, ReportAll;
    match e
    case Heard(x, sn) => HeardJoins(s, asks, x, sn);
    case Announced(x, stored) => AnnouncedJoins(s, asks, x, stored);
    case Left(x) => LeaveJoins(s, asks, x);
    case TimedOut(x) => LeaveJoins(s, asks, x);
    case Reports => ReportJoins(s, asks);
    case Walked(_) =>
  }

  lemma StepKeepsTable(s: Session, x: u32, events: seq<SessionEvent>, e: SessionEvent)
    requires Joined(s, Asks(events)) && Step(s, e).Some?
    requires (x in s.participants <==> Member(events, x)) && (x in s.timers <==> Armed(events, x))
    ensures var t := Step(s, e).value;
            (x in t.participants <==> Member(events + [e], x)) && (x in t.timers <==> Armed(events + [e], x))
  {
    hide UpdateSeq, Receive, Reported, NewSource, Asks;
    assert (events + [e])[..|events|] == events;
  }

  /** Whatever the sources in a session send over RTP and RTCP, in whatever order they come and go
      and time out, and whenever reports are sent: a source is in the table exactly if it is a
      member, its entry is what it alone would have produced since it joined, a timer runs for it
      exactly if it is armed, and as many have joined as have asked, up to 31. */
  lemma {:induction false} SourcesAreIndependent(events: seq<SessionEvent>, x: u32)
    requires SessionRun(EMPTY_SESSION, events).Some?
    ensures var s := SessionRun(EMPTY_SESSION, events).value;
            Accounted(s, x, events) && Joined(s, Asks(events))
  {
    hide Step, EntryKept, Joined, Later, Member, Armed;
    if events == [] {
      NothingAccounted(x);
    } else {
      var (init, e) := (events[..|events| - 1], events[|events| - 1]);
      var s := SessionRun(EMPTY_SESSION, init).value;
      SourcesAreIndependent(init, x);
      assert events == init + [e];
      StepKeepsEntry(s, x, PastOf(init, x), e);
      StepKeepsTable(s, x, init, e);
      StepJoins(s, Asks(init), e);
      if !e.Reports? {
        SourcesAreIndependent(init, e.ssrc);
      }
    }
  }

  lemma NothingAccounted(x: u32)
    ensures Accounted(EMPTY_SESSION, x, []) && Joined(EMPTY_SESSION, 0)
  {}

  /** A source that has been heard of since it last left or timed out is missing from the table
      only because 31 had joined. */
  lemma {:induction false} MissingOnlyWhenFull(events: seq<SessionEvent>, x: u32)
    requires PastOf(events, x) != Unheard && !Member(events, x)
    ensures Asks(events) >= MAX_SUPPORTED_PARTICIPANTS
  {
    var (init, e) := (events[..|events| - 1], events[|events| - 1]);
    if PastOf(init, x) != Unheard && !Member(init, x) {
      MissingOnlyWhenFull(init, x);
    }
  }

  /** Leaving frees no slot: once 31 sources have joined, no source joins again. */
  lemma {:induction false} FullSessionAdmitsNoOne(s: Session, events: seq<SessionEvent>)
    requires s.numReceivers == MAX_SUPPORTED_PARTICIPANTS && SessionRun(s, events).Some?
    ensures var t := SessionRun(s, events).value;
            t.numReceivers == MAX_SUPPORTED_PARTICIPANTS && t.participants.Keys <= s.participants.Keys
  {
    hide UpdateSeq, Receive, Reported, NewSource;
    if events != [] {
      FullSessionAdmitsNoOne(s, events[..|events| - 1]);
    }
  }

  // ---------- packets that are passed on ----------

  /** What becomes of a packet of a member that has been valid for some time, or not yet. */
  function Verdict(wasValid: bool, valid: bool, far: bool, restart: bool): Ret {
    if !valid then Ok else if wasValid && far && !restart then GenericError else PktNotHandled
  }

  /** From the third packet on, one of these followed its predecessor directly. */
  predicate Validated(seqs: seq<u16>) {
    exists n :: 2 <= n < |seqs| && InSequence(seqs, n)
  }

  lemma ReturnCode(s: Session, x: u32, sn: u16)
    requires x in s.participants
    ensures var p := s.participants[x];
            HandleRtp(s, x, sn).1 ==
            Verdict(p.probation == 0, Receive(p, sn).probation == 0, IsFar(p, sn), Resyncs(p, sn))
  {}

  lemma SameVerdict(q: Participant, r: Participant, sn: u16)
    requires SameFigures(q, r)
    ensures q.probation == r.probation && IsFar(q, sn) == IsFar(r, sn) && Resyncs(q, sn) == Resyncs(r, sn)
    ensures Receive(q, sn).probation == Receive(r, sn).probation
  {}

  lemma RestartIsFar(p: Participant, sn: u16)
    requires Resyncs(p, sn)
    ensures p.probation == 0 && IsFar(p, sn)
  {}

  lemma ValidatedIs(seqs: seq<u16>)
    requires seqs != []
    ensures SourceRun(seqs).probation == 0 <==> Validated(seqs)
  {
    ProbationEndsExactly(seqs);
  }

  /** What becomes of packet sn of a source that is in the table. */
  function VerdictOf(past: Past, far: bool, sn: u16): Ret
    requires !past.Unheard?
  {
    match past
    case Started(first, since) =>
      var seqs := [first] + ArrivalsIn(since);
      var l := LatestOf(NewSource(first), ArrivalsIn(since));
      Verdict(Validated(seqs), Validated(seqs + [sn]), far, l.Refused? && sn == (l.sn + 1) % RTP_SEQ_MOD)
    case Known(since) =>
      var l := LatestOf(ZERO_STATS, ArrivalsIn(since));
      Verdict(true, true, far, (l.Refused? && sn == (l.sn + 1) % RTP_SEQ_MOD) || (l.Untouched? && sn == 0))
  }

  lemma StartedVerdict(first: u16, since: seq<Event>, sn: u16)
    ensures var p := EntryOf(Started(first, since));
            Verdict(p.probation == 0, Receive(p, sn).probation == 0, IsFar(p, sn), Resyncs(p, sn)) ==
            VerdictOf(Started(first, since), IsFar(p, sn), sn)
  {
    hide UpdateSeq, Receive, NewSource, Run, RunEvents, LatestOf, Validated, Resyncs, SameFigures, IsFar;
    var (p, seqs) := (EntryOf(Started(first, since)), [first] + ArrivalsIn(since));
    assert seqs[1..] == ArrivalsIn(since);
    ReportsOnlySettle(NewSource(first), since);
    SameVerdict(p, SourceRun(seqs), sn);
    ResyncsExactly(seqs, sn);
    ValidatedIs(seqs);
    ValidatedIs(seqs + [sn]);
    SourceRunSnoc(seqs, sn);
  }

  lemma KnownVerdict(since: seq<Event>, sn: u16)
    ensures var p := EntryOf(Known(since));
            Verdict(p.probation == 0, Receive(p, sn).probation == 0, IsFar(p, sn), Resyncs(p, sn)) ==
            VerdictOf(Known(since), IsFar(p, sn), sn)
  {
    hide UpdateSeq, Receive, Run, RunEvents, LatestOf, Resyncs, SameFigures, IsFar;
    var (p, seqs) := (EntryOf(Known(since)), ArrivalsIn(since));
    ReportsOnlySettle(ZERO_STATS, since);
    SameVerdict(p, Run(ZERO_STATS, seqs), sn);
    AnnouncedResyncsExactly(seqs, sn);
    AnnouncedResyncsExactly(seqs + [sn], sn);
    RunSnoc(ZERO_STATS, seqs, sn);
  }

  /** Which packets are passed on to other handlers, as PktNotHandled tells: the first one of a
      source that is let in; of a source that started by RTP, those from the one that ends its
      probation on, but for those that are far off and no restart; and of one that joined by RTCP,
      all but the latter. Packets during probation are kept back (Ok), others refused. */
  lemma PassedOnExactly(run: seq<SessionEvent>, x: u32, sn: u16)
    requires SessionRun(EMPTY_SESSION, run).Some?
    ensures var s := SessionRun(EMPTY_SESSION, run).value;
            var ret := HandleRtp(s, x, sn).1;
            if !Member(run, x) then
              ret == if Asks(run) < MAX_SUPPORTED_PARTICIPANTS then PktNotHandled else GenericError
            else
              x in s.participants && !PastOf(run, x).Unheard? &&
              ret == VerdictOf(PastOf(run, x), IsFar(s.participants[x], sn), sn)
  {
    hide SessionRun, EntryOf, Receive, VerdictOf, Resyncs, IsFar, Verdict, Asks, Member, PastOf, UpdateSeq, NewSource;
    SourcesAreIndependent(run, x);
    if Member(run, x) {
      ReturnCode(SessionRun(EMPTY_SESSION, run).value, x, sn);
      match PastOf(run, x) {
        case Started(first, since) => StartedVerdict(first, since, sn);
        case Known(since) => KnownVerdict(since, sn);
        case Unheard =>
      }
    }
  }

  // ---------- null entries ----------

  /** Event i makes the source follow a null entry: a handler that uses the entry of its sender,
      who is no member and cannot become one, or a timer that ran for someone who is no member. */
  predicate BreaksAt(events: seq<SessionEvent>, i: nat) {
    i < |events| &&
    var before := events[..i];
    match events[i]
    case Announced(x, stored) => stored && !Member(before, x) && Asks(before) >= MAX_SUPPORTED_PARTICIPANTS
    case TimedOut(x) => Armed(before, x) && !Member(before, x)
    case _ => false
  }

  lemma StepBreaks(events: seq<SessionEvent>, e: SessionEvent)
    requires SessionRun(EMPTY_SESSION, events).Some?
    ensures Step(SessionRun(EMPTY_SESSION, events).value, e).None? <==> BreaksAt(events + [e], |events|)
  {
    hide SessionRun, Member, Armed, Asks, HandleRtp, Leave, ReportAll;
    assert (events + [e])[..|events|] == events;
    if !e.Reports? {
      SourcesAreIndependent(events, e.ssrc);
    }
  }

  /** A run follows a null entry if and only if one of its events breaks it. */
  lemma {:induction false} RunBreaksExactly(events: seq<SessionEvent>)
    ensures SessionRun(EMPTY_SESSION, events).None? <==> exists i: nat :: BreaksAt(events, i)
  {
    hide Step, Member, Armed, Asks;
    if events != [] {
      var (init, e) := (events[..|events| - 1], events[|events| - 1]);
      RunBreaksExactly(init);
      assert events == init + [e];
      forall i: nat | i < |init|
        ensures BreaksAt(init, i) <==> BreaksAt(events, i)
      {
        assert init[..i] == events[..i];
      }
      if SessionRun(EMPTY_SESSION, init).Some? {
        StepBreaks(init, e);
      }
    }
  }

  /** In any session that is still sound, an SR, RR, SDES or APP packet makes it follow a null
      entry if and only if 31 sources have joined, the sender is none of the members, and the
      handler uses the entry of the sender. */
  lemma FullSessionBreaks(events: seq<SessionEvent>, x: u32, stored: bool)
    requires SessionRun(EMPTY_SESSION, events).Some?
    ensures SessionRun(EMPTY_SESSION, events + [Announced(x, stored)]).None? <==>
            stored && Asks(events) >= MAX_SUPPORTED_PARTICIPANTS && !Member(events, x)
  {
    hide SessionRun, Step, Member, Armed, Asks;
    NextBreaks(events, Announced(x, stored));
  }

  /** In any session that is still sound, a timer that runs out makes it follow a null entry if and
      only if it ran for someone who is no member. */
  lemma StrangersTimeOut(events: seq<SessionEvent>, x: u32)
    requires SessionRun(EMPTY_SESSION, events).Some?
    ensures SessionRun(EMPTY_SESSION, events + [TimedOut(x)]).None? <==> Armed(events, x) && !Member(events, x)
  {
    hide SessionRun, Step, Member, Armed, Asks;
    NextBreaks(events, TimedOut(x));
  }

  lemma NextBreaks(events: seq<SessionEvent>, e: SessionEvent)
    requires SessionRun(EMPTY_SESSION, events).Some?
    ensures SessionRun(EMPTY_SESSION, events + [e]).None? <==> BreaksAt(events + [e], |events|)
    ensures (events + [e])[..|events|] == events
  {
    hide Step, BreaksAt;
    assert (events + [e])[..|events|] == events;
    StepBreaks(events, e);
  }

  /** A BYE in a session no one has joined is enough to arm a timer that breaks the session. */
  lemma UnknownByeBreaks(head: u32, x: u32)
    ensures SessionRun(EMPTY_SESSION, [Walked(head), Left(x)]).Some?
    ensures SessionRun(EMPTY_SESSION, [Walked(head), Left(x), TimedOut(head)]).None?
  {
    var (a, b) := ([Walked(head)], [Walked(head), Left(x)]);
    assert a[..0] == [] && b[..1] == a;
    var none: set<u32> := {};
    assert none + {head} == {head};
    assert SessionRun(EMPTY_SESSION, []) == Some(EMPTY_SESSION);
    assert SessionRun(EMPTY_SESSION, a) == Some(Session(map[], 0, {head}));
    assert SessionRun(EMPTY_SESSION, b) == Some(Session(map[], 0, {head}));
    assert [Walked(head), Left(x), TimedOut(head)][..2] == b;
  }

  /** Sources that send one RTP packet each. */
  function Joining(sources: seq<u32>): (events: seq<SessionEvent>)
    ensures |events| == |sources| && forall i :: 0 <= i < |sources| ==> events[i] == Heard(sources[i], 0)
  {
    seq(|sources|, i requires 0 <= i < |sources| => Heard(sources[i], 0))
  }

  predicate Distinct(sources: seq<u32>) {
    forall i, j :: 0 <= i < j < |sources| ==> sources[i] != sources[j]
  }

  lemma {:induction false} AllJoin(sources: seq<u32>, x: u32)
    requires Distinct(sources) && |sources| <= MAX_SUPPORTED_PARTICIPANTS
    ensures SessionRun(EMPTY_SESSION, Joining(sources)).Some? && Asks(Joining(sources)) == |sources|
    ensures Member(Joining(sources), x) <==> x in sources
  {
    hide HandleRtp, Armed;
    if sources != [] {
      var (init, last) := (sources[..|sources| - 1], sources[|sources| - 1]);
      assert Joining(sources)[..|init|] == Joining(init);
      assert sources == init + [last];
      AllJoin(init, x);
      AllJoin(init, last);
    }
  }

  /** Thirty-one sources have sent a packet each. An SR from a thirty-second breaks the session,
      and so does its first RTP packet once its timer runs out. */
  lemma ThirtySecondBreaks(sources: seq<u32>, x: u32, sn: u16)
    requires Distinct(sources) && |sources| == MAX_SUPPORTED_PARTICIPANTS && x !in sources
    ensures SessionRun(EMPTY_SESSION, Joining(sources) + [Announced(x, true)]).None?
    ensures SessionRun(EMPTY_SESSION, Joining(sources) + [Heard(x, sn)]).Some?
    ensures SessionRun(EMPTY_SESSION, Joining(sources) + [Heard(x, sn)] + [TimedOut(x)]).None?
  {
    hide SessionRun, Step;
    var full := Joining(sources);
    AllJoin(sources, x);
    FullSessionBreaks(full, x, true);
    NextBreaks(full, Heard(x, sn));
    StrangersTimeOut(full + [Heard(x, sn)], x);
  }

  // ---------- the object that keeps the table ----------

  datatype ReportBlock = ReportBlock(
    ssrc: u32, fraction: byte, lost: u32, cycles: u16, maxSeq: u16, jitter: u32, lsr: u32, dlsr: u32)

  /** The clock-driven figures of a source, which are not modelled further. */
  datatype Timing = Timing(jitter: u32, lsr: u32, dlsr: u32)

  function BlockOf(ssrc: u32, p: Participant, t: Timing): ReportBlock {
    ReportBlock(ssrc, IntervalOf(p).fraction, p.lostPkts, p.cycles, p.maxSeq, t.jitter, t.lsr, t.dlsr)
  }

  /** Order lists the keys of the table, each once, as an iteration over it visits them. */
  ghost predicate Enumerates(order: seq<u32>, keys: set<u32>) {
    && (forall i :: 0 <= i < |order| ==> order[i] in keys)
    && (forall i, j :: 0 <= i < j < |order| ==> order[i] != order[j])
    && (forall s :: s in keys ==> s in order)
  }

  lemma {:induction false} EnumerationSize(order: seq<u32>, keys: set<u32>)
    requires Enumerates(order, keys)
    ensures |order| == |keys|
  {
    if order == [] {
      assert keys == {};
    } else {
      var i := |order| - 1;
      assert order == order[..i] + [order[i]];
      EnumerationSize(order[..i], keys - {order[i]});
    }
  }

  /** The blocks for those of the first n sources that were heard since the last report. */
  function ReportsOn(table: map<u32, Participant>, timing: u32 -> Timing, order: seq<u32>, n: nat): seq<ReportBlock>
    requires n <= |order| && forall i :: 0 <= i < |order| ==> order[i] in table
  {
    if n == 0 then []
    else
      var s := order[n - 1];
      ReportsOn(table, timing, order, n - 1) +
      (if table[s].receivedRtpPacket then [BlockOf(s, table[s], timing(s))] else [])
  }

  /** There is one block for each source heard and none for the others. */
  lemma {:induction false} ReportsOnHeard(table: map<u32, Participant>, timing: u32 -> Timing, order: seq<u32>, n: nat)
    requires Enumerates(order, table.Keys) && n <= |order|
    ensures var blocks := ReportsOn(table, timing, order, n);
            && (forall i, j :: 0 <= i < j < |blocks| ==> blocks[i].ssrc != blocks[j].ssrc)
            && (forall b :: b in blocks ==> b.ssrc in order[..n] && table[b.ssrc].receivedRtpPacket &&
                                            b == BlockOf(b.ssrc, table[b.ssrc], timing(b.ssrc)))
            && (forall i :: 0 <= i < n && table[order[i]].receivedRtpPacket ==>
                  BlockOf(order[i], table[order[i]], timing(order[i])) in blocks)
  {
    if n != 0 {
      ReportsOnHeard(table, timing, order, n - 1);
      assert order[..n] == order[..n - 1] + [order[n - 1]];
    }
  }

  // ---------- report blocks over a run of the session ----------

  lemma {:induction false} RunEventsConcat(p: Participant, a: seq<Event>, b: seq<Event>)
    ensures RunEvents(p, a + b).0 == RunEvents(RunEvents(p, a).0, b).0
  {
    hide Receive, Reported, IntervalOf;
    if b == [] {
      assert a + b == a;
    } else {
      var (init, last) := (b[..|b| - 1], b[|b| - 1]);
      RunEventsConcat(p, a, init);
      assert a + b == (a + init) + [last] && b == init + [last];
      RunEventsSnoc(p, a + init, last);
      RunEventsSnoc(RunEvents(p, a).0, init, last);
    }
  }

  function Arrivals(seqs: seq<u16>): (r: seq<Event>)
    ensures |r| == |seqs| && forall i :: 0 <= i < |r| ==> r[i] == Arrival(seqs[i])
  {
    seq(|seqs|, i requires 0 <= i < |seqs| => Arrival(seqs[i]))
  }

  lemma {:induction false} RunOfArrivals(p: Participant, seqs: seq<u16>)
    ensures RunEvents(p, Arrivals(seqs)).0 == Run(p, seqs)
  {
    hide Receive;
    if seqs != [] {
      var i := |seqs| - 1;
      RunOfArrivals(p, seqs[..i]);
      assert Arrivals(seqs)[..i] == Arrivals(seqs[..i]);
    }
  }

  /** In a run of the session x became valid with packets seqs, the last one of true number b, and
      then, with packets in the window and reports, went through these events. */
  ghost predicate Went(run: seq<SessionEvent>, x: u32, seqs: seq<u16>, b: int, events: seq<TrueEvent>) {
    && SessionRun(EMPTY_SESSION, run).Some? && Member(run, x) && Ordered(seqs, b, events)
    && PastOf(run, x) == Started(seqs[0], Arrivals(seqs[1..]) + OnWire(events))
  }

  lemma EntryOfWent(run: seq<SessionEvent>, x: u32, seqs: seq<u16>, b: int, events: seq<TrueEvent>)
    requires Went(run, x, seqs, b, events)
    ensures var s := SessionRun(EMPTY_SESSION, run).value;
            x in s.participants && SaysTrue(s.participants[x], b, events)
  {
    hide SessionRun, RunEvents, Run, PastOf, Ordered, SaysTrue, NewSource;
    SourcesAreIndependent(run, x);
    EntrySaysTrue(seqs, b, events);
    RunEventsConcat(NewSource(seqs[0]), Arrivals(seqs[1..]), OnWire(events));
    RunOfArrivals(NewSource(seqs[0]), seqs[1..]);
  }

  /** There is a block about x. */
  predicate ReportsAbout(blocks: seq<ReportBlock>, x: u32) {
    exists i :: 0 <= i < |blocks| && blocks[i].ssrc == x
  }

  /** The report block of such a source: there is one exactly if a packet has come since the last
      report; its loss is the number of true numbers missing, less the packets that filled no gap,
      less one for the packet counted before probation; its extended maximum is the highest true
      number; and its fraction is the share of the numbers newly expected that have not come. */
  lemma BlocksAreExact(run: seq<SessionEvent>, x: u32, seqs: seq<u16>, b: int, events: seq<TrueEvent>,
                       timing: u32 -> Timing, order: seq<u32>)
    requires Went(run, x, seqs, b, events)
    requires Enumerates(order, SessionRun(EMPTY_SESSION, run).value.participants.Keys)
    ensures var blocks := ReportsOn(SessionRun(EMPTY_SESSION, run).value.participants, timing, order, |order|);
            var (ts, news) := (Numbers(events), NewsOf(b, events));
            && (news.packets > 0 <==> ReportsAbout(blocks, x))
            && forall block :: block in blocks && block.ssrc == x ==>
                 && block.lost == Max(0, |Missing(b, ts)| - Surplus(b, ts) - 1)
                 && block.cycles * RTP_SEQ_MOD + block.maxSeq == Wrap32(Low16(b) + MaxOf(b, ts) - b)
                 && (news.expected - news.packets < 0x100_0000 ==>
                       block.fraction == LossRatio(news.expected, news.packets))
                 && block.jitter == timing(x).jitter && block.lsr == timing(x).lsr && block.dlsr == timing(x).dlsr
  {
    hide Missing, Surplus, NewsOf, Numbers, MaxOf, SessionRun, ReportsOn, IntervalOf, LossRatio, Ordered, PastOf,
      ReportsAbout, Member;
    var table := SessionRun(EMPTY_SESSION, run).value.participants;
    EntryOfWent(run, x, seqs, b, events);
    ReportsOnHeard(table, timing, order, |order|);
    assert order[..|order|] == order;
    HasBlockIfHeard(table, timing, order, x);
  }

  lemma HasBlockIfHeard(table: map<u32, Participant>, timing: u32 -> Timing, order: seq<u32>, x: u32)
    requires Enumerates(order, table.Keys) && x in table
    ensures ReportsAbout(ReportsOn(table, timing, order, |order|), x) <==> table[x].receivedRtpPacket
  {
    hide ReportsOn, IntervalOf;
    ReportsOnHeard(table, timing, order, |order|);
    assert order[..|order|] == order;
    if table[x].receivedRtpPacket {
      assert x in order;
      var i :| 0 <= i < |order| && order[i] == x;
      assert BlockOf(order[i], table[order[i]], timing(order[i])) in ReportsOn(table, timing, order, |order|);
    }
  }

  /** The first n sources are settled, and the others as they were. */
  ghost predicate SettledUpTo(table: map<u32, Participant>, now: map<u32, Participant>, order: seq<u32>, n: nat)
    requires Enumerates(order, table.Keys) && n <= |order|
  {
    && now.Keys == table.Keys && (forall j :: 0 <= j < n ==> now[order[j]] == Reported(table[order[j]]))
    && forall j :: n <= j < |order| ==> now[order[j]] == table[order[j]]
  }

  lemma SettleNext(table: map<u32, Participant>, now: map<u32, Participant>, order: seq<u32>, n: nat)
    requires Enumerates(order, table.Keys) && n < |order| && SettledUpTo(table, now, order, n)
    ensures now.Keys == table.Keys && now[order[n]] == table[order[n]]
    ensures SettledUpTo(table, now[order[n] := Reported(table[order[n]])], order, n + 1)
    ensures !table[order[n]].receivedRtpPacket ==> SettledUpTo(table, now, order, n + 1)
  {
    hide AfterReport;
    assert now[order[n] := Reported(table[order[n]])].Keys == table.Keys;
  }

  lemma SettledAtFirst(table: map<u32, Participant>, order: seq<u32>)
    requires Enumerates(order, table.Keys)
    ensures SettledUpTo(table, table, order, 0)
  {}

  lemma AllSettled(table: map<u32, Participant>, now: map<u32, Participant>, order: seq<u32>)
    requires Enumerates(order, table.Keys) && SettledUpTo(table, now, order, |order|)
    ensures now.Keys == table.Keys && forall s :: s in now ==> now[s] == Reported(table[s])
  {
    hide Reported;
    forall s | s in now
      ensures now[s] == Reported(table[s])
    {
      assert s in order;
    }
  }

  lemma UpdateTwice(m: map<u32, Participant>, k: u32, p: Participant, q: Participant)
    ensures m[k := p][k := q] == m[k := q]
  {}

  class Rtcp {
    var participants: map<u32, Participant>
    var numReceivers: nat
    var timers: set<u32>

    ghost predicate Valid()
      reads this
    {
      |participants| <= numReceivers <= MAX_SUPPORTED_PARTICIPANTS
    }

    ghost function View(): Session
      reads this
    {
      Session(participants, numReceivers, timers)
    }

    constructor ()
      ensures Valid() && View() == EMPTY_SESSION
    {
      participants, numReceivers, timers := map[], 0, {};
    }

    method AddParticipant(ssrc: u32) returns (ret: Ret)
      requires Valid()
      modifies this`participants, this`numReceivers
      ensures Valid()
      ensures ret == if old(numReceivers) == MAX_SUPPORTED_PARTICIPANTS then GenericError else Ok
      ensures ret == GenericError ==> View() == old(View())
      ensures ret == Ok ==> View() == Session(old(participants)[ssrc := ZERO_STATS], old(numReceivers) + 1, timers)
    {
      if numReceivers == MAX_SUPPORTED_PARTICIPANTS {
        return GenericError;
      }
      assert participants[ssrc := ZERO_STATS].Keys == participants.Keys + {ssrc};
      participants := participants[ssrc := ZERO_STATS];
      numReceivers := numReceivers + 1;
      return Ok;
    }

    /** Writes the fields of an existing participant. */
    method Store(ssrc: u32, p: Participant)
      requires Valid() && ssrc in participants
      modifies this`participants
      ensures Valid() && participants == old(participants)[ssrc := p]
      ensures participants.Keys == old(participants).Keys
    {
      participants := participants[ssrc := p];
      assert participants.Keys == old(participants).Keys;
    }

    method InitParticipantSeq(ssrc: u32, baseSeq: u16) returns (ret: Ret)
      requires Valid()
      modifies this`participants
      ensures Valid() && participants.Keys == old(participants).Keys
      ensures ssrc !in participants ==> ret == NotFound && participants == old(participants)
      ensures ssrc in participants ==>
                ret == Ok && participants == old(participants)[ssrc := InitSeq(old(participants)[ssrc], baseSeq)]
    {
      if ssrc !in participants {
        return NotFound;
      }
      Store(ssrc, participants[ssrc].(baseSeq := baseSeq, maxSeq := baseSeq, badSeq := NO_BAD_SEQ));
      return Ok;
    }

    method UpdateParticipantSeq(ssrc: u32, sn: u16) returns (ret: Ret)
      requires Valid()
      modifies this`participants
      ensures Valid() && participants.Keys == old(participants).Keys
      ensures ssrc !in participants ==> ret == GenericError && participants == old(participants)
      ensures ssrc in participants ==>
                ret == UpdateSeq(old(participants)[ssrc], sn).1 &&
                participants == old(participants)[ssrc := UpdateSeq(old(participants)[ssrc], sn).0]
    {
      if ssrc !in participants {
        return GenericError;
      }
      var p := participants[ssrc];
      var udelta: u16 := (sn - p.maxSeq) % RTP_SEQ_MOD;
      if p.probation != 0 {
        if sn == p.maxSeq + 1 {
          Store(ssrc, p.(probation := p.probation - 1, maxSeq := sn));
          if participants[ssrc].probation == 0 {
            ret := InitParticipantSeq(ssrc, sn);
            return Ok;
          }
        } else {
          Store(ssrc, p.(probation := MIN_SEQUENTIAL - 1, maxSeq := sn));
        }
        return NotReady;
      } else if udelta < MAX_DROPOUT {
        if sn < p.maxSeq {
          p := p.(cycles := (p.cycles + 1) % RTP_SEQ_MOD);
        }
        Store(ssrc, p.(maxSeq := sn));
      } else if udelta <= RTP_SEQ_MOD - MAX_MISORDER {
        if sn == p.badSeq {
          ret := InitParticipantSeq(ssrc, sn);
        } else {
          Store(ssrc, p.(badSeq := (sn + 1) % RTP_SEQ_MOD));
          return GenericError;
        }
      }
      return Ok;
    }

    method UpdateSessionStatistics(ssrc: u32)
      requires Valid()
      modifies this`participants
      ensures Valid() && participants.Keys == old(participants).Keys
      ensures ssrc !in participants ==> participants == old(participants)
      ensures ssrc in participants ==> participants == old(participants)[ssrc := Count(old(participants)[ssrc])]
    {
      if ssrc !in participants {
        return;
      }
      var p := participants[ssrc];
      p := p.(receivedRtpPacket := true, receivedPkts := Wrap32(p.receivedPkts + 1));
      var extendedMax := p.cycles * RTP_SEQ_MOD + p.maxSeq;
      var expected := Wrap32(extendedMax - p.baseSeq + 1);
      var dropped := Signed32(Wrap32(expected - p.receivedPkts));
      Store(ssrc, p.(lostPkts := if dropped >= 0 then dropped else 0));
    }

    method InitNewParticipant(ssrc: u32, sn: u16) returns (ret: Ret)
      requires Valid() && ssrc !in participants
      modifies this
      ensures Valid()
      ensures ret == if old(numReceivers) == MAX_SUPPORTED_PARTICIPANTS then GenericError else Ok
      ensures timers == old(timers) + {ssrc}
      ensures ret == GenericError ==> View() == old(View()).(timers := timers)
      ensures ret == Ok ==>
                View() == Session(old(participants)[ssrc := InitSeq(ZERO_STATS, sn).(probation := MIN_SEQUENTIAL)],
                                  old(numReceivers) + 1, timers)
    {
      timers := timers + {ssrc};
      ret := AddParticipant(ssrc);
      if ret != Ok {
        return;
      }
      ret := InitParticipantSeq(ssrc, sn);
      Store(ssrc, participants[ssrc].(probation := MIN_SEQUENTIAL));
    }

    /** Books an RTP packet; it is passed on to other handlers unless its source is on probation
        or the packet was refused. */
    method RecvPacketHandlerCommon(ssrc: u32, sn: u16) returns (ret: Ret)
      requires Valid()
      modifies this
      ensures Valid()
      ensures (View(), ret) == HandleRtp(old(View()), ssrc, sn)
    {
      if ssrc !in participants {
        ret := InitNewParticipant(ssrc, sn);
        if ret != Ok {
          return GenericError;
        }
      } else {
        ret := UpdateParticipantSeq(ssrc, sn);
        if ret != Ok {
          return if ret == NotReady then Ok else ret;
        }
      }
      UpdateTwice(old(participants), ssrc, participants[ssrc], Count(participants[ssrc]));
      UpdateSessionStatistics(ssrc);
      return PktNotHandled;
    }

    /** What handle_sender_report_packet and its like do about the sender of a report, before and
        after they read it; the source uses a null entry if the result is false. */
    method AdmitAnnounced(ssrc: u32, stored: bool) returns (defined: bool)
      requires Valid()
      modifies this
      ensures Valid()
      ensures defined <==> HandleAnnounced(old(View()), ssrc, stored).Some?
      ensures defined ==> Some(View()) == HandleAnnounced(old(View()), ssrc, stored)
    {
      if ssrc !in participants {
        var ret := AddParticipant(ssrc);
      }
      return !stored || ssrc in participants;
    }

    /** The timeout map, at each packet of a compound whose first packet has this SSRC; it is 0 if
        the compound has at most 8 octets. */
    method UpdateTimeout(ssrc: u32)
      requires Valid()
      modifies this`timers
      ensures Valid() && Some(View()) == Step(old(View()), Walked(ssrc))
    {
      timers := timers + {ssrc};
    }

    method HandleBye(ssrcs: seq<u32>)
      requires Valid()
      modifies this`participants, this`timers
      ensures Valid() && View() == LeaveAll(old(View()), ssrcs)
      ensures participants == old(participants) - (set s | s in ssrcs)
      ensures timers == old(timers) - (set s | s in ssrcs && s in old(participants))
    {
      hide LeaveAll;
      LeaveNone(View());
      for i := 0 to |ssrcs|
        invariant Valid() && View() == LeaveAll(old(View()), ssrcs[..i])
      {
        LeaveNext(old(View()), ssrcs, i);
        if ssrcs[i] in participants {
          SizeWithout(participants, ssrcs[i]);
          participants, timers := participants - {ssrcs[i]}, timers - {ssrcs[i]};
        }
      }
      assert ssrcs[..|ssrcs|] == ssrcs;
      LeaveAllRemoves(old(View()), ssrcs);
    }

    /** What rtcp_runner does about a timer that has run out; the source frees a null entry if the
        result is false. */
    method RemoveTimeoutSsrc(ssrc: u32) returns (defined: bool)
      requires Valid() && ssrc in timers
      modifies this`participants, this`timers
      ensures Valid()
      ensures defined <==> TimeOut(old(View()), ssrc).Some?
      ensures defined ==> Some(View()) == TimeOut(old(View()), ssrc)
    {
      if ssrc !in participants {
        return false;
      }
      assert (participants - {ssrc}).Keys == participants.Keys - {ssrc};
      participants, timers := participants - {ssrc}, timers - {ssrc};
      return true;
    }

    /** The report blocks of one SR or RR, at most as many as the 5-bit count can say. */
    method CollectReports(order: seq<u32>, timing: u32 -> Timing) returns (blocks: seq<ReportBlock>)
      requires Valid() && Enumerates(order, participants.Keys)
      modifies this`participants
      ensures Valid() && participants.Keys == old(participants).Keys
      ensures blocks == ReportsOn(old(participants), timing, order, |order|)
      ensures |blocks| <= MAX_SUPPORTED_PARTICIPANTS
      ensures forall s :: s in participants ==> participants[s] == Reported(old(participants)[s])
    {
      hide SettledUpTo, BlockOf, AfterReport;
      ghost var table := participants;
      EnumerationSize(order, participants.Keys);
      blocks := [];
      SettledAtFirst(table, order);
      for i := 0 to |order|
        invariant Valid() && participants.Keys == table.Keys
        invariant |blocks| <= i && blocks == ReportsOn(table, timing, order, i)
        invariant SettledUpTo(table, participants, order, i)
      {
        SettleNext(table, participants, order, i);
        var ssrc := order[i];
        var p := participants[ssrc];
        if p.receivedRtpPacket {
          blocks := blocks + [BlockOf(ssrc, p, timing(ssrc))];
          Store(ssrc, AfterReport(p));
        }
      }
      AllSettled(table, participants, order);
    }
  }
}
