/**
 * Reception bookkeeping of src/rtcp.cc: the 16-bit sequence tracker with probation,
 * wrap counting and re-sync (appendix A.1 of RFC 3550), the loss figures and the
 * interval fractions of report blocks (appendix A.3).
 */
module RtcpTracker {
  import opened Bytes
  import opened Wrappers

  const RTP_SEQ_MOD := 0x1_0000
  const MIN_SEQUENTIAL := 2
  const MAX_DROPOUT := 3000
  const MAX_MISORDER := 100
  const MAX_SUPPORTED_PARTICIPANTS := 31

  // A value no 16-bit sequence number equals
  const NO_BAD_SEQ: u32 := RTP_SEQ_MOD + 1

  datatype Ret = Ok | NotReady | GenericError | NotFound | PktNotHandled

  /** The tracked fields of one remote source (rtcp_participant and its receiver_statistics). */
  datatype Participant = Participant(
    probation: nat,
    maxSeq: u16,
    baseSeq: u32,
    badSeq: u32,
    cycles: u16,
    receivedPkts: u32,
    lostPkts: u32,
    receivedRtpPacket: bool,
    receivedPrior: u32,
    expectedPrior: u32)

  const ZERO_STATS := Participant(0, 0, 0, 0, 0, 0, 0, false, 0, 0)

  // ---------- one source ----------

  function InitSeq(p: Participant, sn: u16): Participant {
    p.(baseSeq := sn, maxSeq := sn, badSeq := NO_BAD_SEQ)
  }

  /** How far sn lies ahead of the highest sequence number, going up modulo 2^16. */
  function Ahead(p: Participant, sn: u16): u16 {
    (sn - p.maxSeq) % RTP_SEQ_MOD
  }

  predicate IsFar(p: Participant, sn: u16) {
    MAX_DROPOUT <= Ahead(p, sn) <= RTP_SEQ_MOD - MAX_MISORDER
  }

  function UpdateSeq(p: Participant, sn: u16): (Participant, Ret) {
    if p.probation != 0 then
      if sn == p.maxSeq + 1 then
        var q := p.(probation := p.probation - 1, maxSeq := sn);
        if q.probation == 0 then (InitSeq(q, sn), Ok) else (q, NotReady)
      else
        (p.(probation := MIN_SEQUENTIAL - 1, maxSeq := sn), NotReady)
    else if IsFar(p, sn) then
      if sn == p.badSeq then (InitSeq(p, sn), Ok)
      else (p.(badSeq := (sn + 1) % RTP_SEQ_MOD), GenericError)
    else if Ahead(p, sn) < MAX_DROPOUT then
      var wrapped := if sn < p.maxSeq then 1 else 0;
      (p.(maxSeq := sn, cycles := (p.cycles + wrapped) % RTP_SEQ_MOD), Ok)
    else
      (p, Ok)
  }

  /** The 32-bit extended highest sequence number, RFC 3550 section 6.4.1. */
  function Extended(p: Participant): u32 {
    p.cycles * RTP_SEQ_MOD + p.maxSeq
  }

  function Expected(p: Participant): u32 {
    Wrap32(Extended(p) - p.baseSeq + 1)
  }

  function Max(x: int, y: int): int {
    if x < y then y else x
  }

  function Count(p: Participant): Participant {
    var received := Wrap32(p.receivedPkts + 1);
    p.(receivedRtpPacket := true,
       receivedPkts := received,
       lostPkts := Max(0, Signed32(Wrap32(Expected(p) - received))))
  }

  /** The effect of one RTP packet on the source it came from. */
  function Receive(p: Participant, sn: u16): Participant {
    var (q, ret) := UpdateSeq(p, sn);
    if ret == Ok then Count(q) else q
  }

  function NewSource(sn: u16): Participant {
    Count(InitSeq(ZERO_STATS, sn).(probation := MIN_SEQUENTIAL))
  }

  function Run(p: Participant, seqs: seq<u16>): Participant {
    if seqs == [] then p
    else Receive(Run(p, seqs[..|seqs| - 1]), seqs[|seqs| - 1])
  }

  /** A source from its first packet on. */
  function SourceRun(seqs: seq<u16>): Participant
    requires seqs != []
  {
    Run(NewSource(seqs[0]), seqs[1..])
  }

  lemma RunSnoc(p: Participant, seqs: seq<u16>, s: u16)
    ensures Run(p, seqs + [s]) == Receive(Run(p, seqs), s)
  {
    assert (seqs + [s])[..|seqs|] == seqs;
  }

  lemma SourceRunSnoc(seqs: seq<u16>, s: u16)
    requires seqs != []
    ensures SourceRun(seqs + [s]) == Receive(SourceRun(seqs), s)
  {
    assert (seqs + [s])[1..] == seqs[1..] + [s];
    RunSnoc(NewSource(seqs[0]), seqs[1..], s);
  }

  lemma {:induction false} RunConcat(p: Participant, a: seq<u16>, b: seq<u16>)
    ensures Run(p, a + b) == Run(Run(p, a), b)
  {
    if b == [] {
      assert a + b == a;
    } else {
      var i := |b| - 1;
      assert a + b == (a + b[..i]) + [b[i]];
      RunSnoc(p, a + b[..i], b[i]);
      RunConcat(p, a, b[..i]);
    }
  }

  lemma SourceRunConcat(a: seq<u16>, b: seq<u16>)
    requires a != []
    ensures SourceRun(a + b) == Run(SourceRun(a), b)
  {
    assert (a + b)[1..] == a[1..] + b;
    RunConcat(NewSource(a[0]), a[1..], b);
  }

  // ---------- the tracker refines an unbounded counter ----------

  function Low16(t: int): u16 {
    t % RTP_SEQ_MOD
  }

  /** What the wire carries of true, unbounded sequence numbers. */
  function Wire(ts: seq<int>): (w: seq<u16>)
    ensures |w| == |ts| && forall i :: 0 <= i < |ts| ==> w[i] == Low16(ts[i])
  {
    if ts == [] then [] else Wire(ts[..|ts| - 1]) + [Low16(ts[|ts| - 1])]
  }

  function MaxOf(m: int, ts: seq<int>): (r: int)
    ensures m <= r && forall t :: t in ts ==> t <= r
    ensures r == m || r in ts
  {
    if ts == [] then m
    else
      var i := |ts| - 1;
      assert ts == ts[..i] + [ts[i]];
      Max(MaxOf(m, ts[..i]), ts[i])
  }

  predicate InWindow(d: int) {
    -MAX_MISORDER < d < MAX_DROPOUT
  }

  /** Every true number lies in the window around the true maximum seen before it. */
  ghost predicate StaysInWindow(m: int, ts: seq<int>) {
    ts == [] ||
    var i := |ts| - 1;
    StaysInWindow(m, ts[..i]) && InWindow(ts[i] - MaxOf(m, ts[..i]))
  }

  lemma Low16Step(m: int, t: int)
    requires -RTP_SEQ_MOD < t - m < RTP_SEQ_MOD
    ensures (Low16(t) - Low16(m)) % RTP_SEQ_MOD == if m <= t then t - m else RTP_SEQ_MOD + t - m
    ensures m <= t ==> Low16(t) == Low16(m) + t - m - (if Low16(t) < Low16(m) then RTP_SEQ_MOD else 0)
  {}

  lemma CyclesWrap(c: int, low: u16)
    requires 0 <= c <= RTP_SEQ_MOD
    ensures c % RTP_SEQ_MOD * RTP_SEQ_MOD + low == Wrap32(c * RTP_SEQ_MOD + low)
  {}

  /** An in-window packet leaves the tracker alone or moves it forward by the true distance. */
  lemma UpdateInWindow(p: Participant, m: int, t: int)
    requires p.probation == 0 && p.maxSeq == Low16(m) && InWindow(t - m)
    ensures UpdateSeq(p, Low16(t)).1 == Ok
    ensures var q := UpdateSeq(p, Low16(t)).0;
            q == p.(maxSeq := Low16(Max(m, t)), cycles := q.cycles) &&
            Extended(q) == Wrap32(Extended(p) + Max(m, t) - m)
  {
    Low16Step(m, t);
    if m <= t {
      var wrapped := if Low16(t) < Low16(m) then 1 else 0;
      assert Ahead(p, Low16(t)) == t - m;
      CyclesWrap(p.cycles + wrapped, Low16(t));
    } else {
      assert Ahead(p, Low16(t)) == RTP_SEQ_MOD + t - m;
    }
  }

  /** From p at true maximum m, n counted packets led to q at true maximum m'. */
  ghost predicate Tracked(p: Participant, m: int, q: Participant, m': int, n: nat) {
    && q.probation == 0 && q.maxSeq == Low16(m')
    && q.baseSeq == p.baseSeq && q.badSeq == p.badSeq
    && q.receivedPkts == Wrap32(p.receivedPkts + n)
    && Extended(q) == Wrap32(Extended(p) + m' - m)
  }

  lemma WrapAdd(x: int, d: int)
    ensures Wrap32(Wrap32(x) + d) == Wrap32(x + d)
  {}

  /** One in-window packet moves the extended maximum exactly as the true one. */
  lemma TrackedStep(p: Participant, m: int, t: int)
    requires p.probation == 0 && p.maxSeq == Low16(m) && InWindow(t - m)
    ensures Tracked(p, m, Receive(p, Low16(t)), Max(m, t), 1)
  {
    UpdateInWindow(p, m, t);
  }

  lemma TrackedCompose(p: Participant, m: int, q: Participant, m': int, n: nat, r: Participant, m'': int)
    requires Tracked(p, m, q, m', n) && Tracked(q, m', r, m'', 1)
    ensures Tracked(p, m, r, m'', n + 1)
  {
    WrapAdd(p.receivedPkts + n, 1);
    WrapAdd(Extended(p) + m' - m, m'' - m');
  }

  /** The 16-bit tracker with its cycle counter follows the unbounded maximum, modulo 2^32. */
  lemma {:induction false} TracksTrueMaximum(p: Participant, m: int, ts: seq<int>)
    requires p.probation == 0 && p.maxSeq == Low16(m) && StaysInWindow(m, ts)
    ensures Tracked(p, m, Run(p, Wire(ts)), MaxOf(m, ts), |ts|)
  {
    if ts != [] {
      var i := |ts| - 1;
      var (q, m') := (Run(p, Wire(ts[..i])), MaxOf(m, ts[..i]));
      TracksTrueMaximum(p, m, ts[..i]);
      TrackedStep(q, m', ts[i]);
      RunSnoc(p, Wire(ts[..i]), Low16(ts[i]));
      TrackedCompose(p, m, q, m', i, Receive(q, Low16(ts[i])), Max(m', ts[i]));
    }
  }

  /** Within one revolution the window is exact: outside it the packet takes the far branch. */
  lemma WindowIsExact(p: Participant, m: int, t: int)
    requires p.maxSeq == Low16(m)
    requires MAX_DROPOUT - RTP_SEQ_MOD <= t - m <= RTP_SEQ_MOD - MAX_MISORDER
    ensures IsFar(p, Low16(t)) <==> !InWindow(t - m)
  {
    var d := t - m;
    assert Ahead(p, Low16(t)) == if 0 <= d then d else RTP_SEQ_MOD + d;
  }

  // ---------- probation and re-sync ----------

  /** Packet n follows packet n - 1 directly; 65535 followed by 0 does not qualify. */
  predicate InSequence(seqs: seq<u16>, n: nat)
    requires 1 <= n < |seqs|
  {
    seqs[n] as int == seqs[n - 1] as int + 1
  }

  /** A new source is valid after packets seqs exactly if, from the third packet on, one
      followed its predecessor directly. Until then only the first packet is counted. */
  lemma {:induction false} ProbationEndsExactly(seqs: seq<u16>)
    requires seqs != []
    ensures var p := SourceRun(seqs);
            && (p.probation == 0 <==> exists n :: 2 <= n < |seqs| && InSequence(seqs, n))
            && (p.probation != 0 ==> p.maxSeq == seqs[|seqs| - 1] && p.receivedPkts == 1 &&
                                     p.probation == (if |seqs| == 1 then 2 else 1) &&
                                     p.cycles == 0)
  {
    if |seqs| > 1 {
      var i := |seqs| - 1;
      var pre := seqs[..i];
      ProbationEndsExactly(pre);
      assert seqs == pre + [seqs[i]];
      SourceRunSnoc(pre, seqs[i]);
      forall n | 2 <= n < |pre|
        ensures InSequence(pre, n) <==> InSequence(seqs, n)
      {}
      assert i >= 2 ==> (SourceRun(seqs).probation == 0 <==>
                         SourceRun(pre).probation == 0 || InSequence(seqs, i));
    }
  }

  /** The tracker takes sn as a restart of the source. */
  predicate Resyncs(p: Participant, sn: u16) {
    p.probation == 0 && IsFar(p, sn) && UpdateSeq(p, sn).1 == Ok
  }

  /** What last concerned the record of bad sequence numbers: nothing yet, a restart, or a packet
      that was refused. */
  datatype Latest = Untouched | Restarted | Refused(sn: u16)

  function LatestOf(p: Participant, seqs: seq<u16>): Latest {
    if seqs == [] then Untouched
    else
      var i := |seqs| - 1;
      var q := Run(p, seqs[..i]);
      if UpdateSeq(q, seqs[i]).1 == GenericError then Refused(seqs[i])
      else if Resyncs(q, seqs[i]) then Restarted
      else LatestOf(p, seqs[..i])
  }

  /** The record of a source that started with the given one. */
  function RecordOf(l: Latest, first: u32): u32 {
    match l
    case Untouched => first
    case Restarted => NO_BAD_SEQ
    case Refused(sn) => (sn + 1) % RTP_SEQ_MOD
  }

  /** A source on probation has no record; one that joins by RTCP is never on probation. */
  predicate Starts(p: Participant) {
    p.probation != 0 ==> p.badSeq == NO_BAD_SEQ
  }

  lemma RefusalIsRecorded(p: Participant, sn: u16)
    requires Starts(p)
    ensures Receive(p, sn).badSeq ==
            if UpdateSeq(p, sn).1 == GenericError then RecordOf(Refused(sn), 0)
            else if Resyncs(p, sn) then NO_BAD_SEQ
            else p.badSeq
    ensures Receive(p, sn).probation != 0 ==> p.probation != 0
    ensures p.probation != 0 ==> UpdateSeq(p, sn).1 != GenericError && !Resyncs(p, sn)
  {}

  lemma {:induction false} BadSeqRecordsLastRefused(p: Participant, seqs: seq<u16>)
    requires Starts(p)
    ensures Run(p, seqs).badSeq == RecordOf(LatestOf(p, seqs), p.badSeq)
    ensures Run(p, seqs).probation != 0 ==> p.probation != 0 && LatestOf(p, seqs) == Untouched
  {
    hide UpdateSeq, Receive, Resyncs;
    if seqs != [] {
      var i := |seqs| - 1;
      BadSeqRecordsLastRefused(p, seqs[..i]);
      RefusalIsRecorded(Run(p, seqs[..i]), seqs[i]);
    }
  }

  lemma ResyncsByRecord(p: Participant, sn: u16)
    ensures Resyncs(p, sn) <==> p.probation == 0 && IsFar(p, sn) && sn == p.badSeq
  {}

  lemma NewSourceStarts(sn: u16)
    ensures Starts(NewSource(sn)) && NewSource(sn).badSeq == NO_BAD_SEQ
  {}

  /** A far packet restarts a valid source exactly if the packet that last touched the record of
      the source was refused, and was its predecessor modulo 2^16. */
  lemma ResyncsExactly(seqs: seq<u16>, sn: u16)
    requires seqs != []
    ensures var p := SourceRun(seqs);
            var l := LatestOf(NewSource(seqs[0]), seqs[1..]);
            Resyncs(p, sn) <==> p.probation == 0 && IsFar(p, sn) && l.Refused? && sn == (l.sn + 1) % RTP_SEQ_MOD
  {
    hide Resyncs, NewSource, LatestOf, Run;
    NewSourceStarts(seqs[0]);
    BadSeqRecordsLastRefused(NewSource(seqs[0]), seqs[1..]);
    ResyncsByRecord(SourceRun(seqs), sn);
  }

  /** The record of a source that joins by RTCP starts at 0, so that number 0 restarts it as well
      if nothing has touched the record yet. */
  lemma AnnouncedResyncsExactly(seqs: seq<u16>, sn: u16)
    ensures var p := Run(ZERO_STATS, seqs);
            var l := LatestOf(ZERO_STATS, seqs);
            p.probation == 0 &&
            (Resyncs(p, sn) <==>
             IsFar(p, sn) && ((l.Refused? && sn == (l.sn + 1) % RTP_SEQ_MOD) || (l.Untouched? && sn == 0)))
  {
    hide Resyncs, LatestOf, Run;
    BadSeqRecordsLastRefused(ZERO_STATS, seqs);
    ResyncsByRecord(Run(ZERO_STATS, seqs), sn);
  }

  /** Packets 2999 and 5000 are accepted from a source that has joined by RTCP, and packet 0 then
      restarts it, though nothing has been refused. */
  lemma RestartsUnrefused()
    ensures UpdateSeq(ZERO_STATS, 2999).1 == Ok && UpdateSeq(Run(ZERO_STATS, [2999]), 5000).1 == Ok
    ensures LatestOf(ZERO_STATS, [2999, 5000]) == Untouched && Resyncs(Run(ZERO_STATS, [2999, 5000]), 0)
  {
    hide Expected, Signed32, Wrap32;
    assert [2999][..0] == [] && [2999, 5000][..1] == [2999];
    var p := Run(ZERO_STATS, [2999]);
    assert p == Receive(ZERO_STATS, 2999);
    assert Run(ZERO_STATS, [2999, 5000]) == Receive(p, 5000);
    assert LatestOf(ZERO_STATS, [2999]) == Untouched;
  }

  /** A restart leaves the cycle and packet counters of the previous life of the source. */
  lemma ResyncKeepsCounters(p: Participant, sn: u16)
    requires Resyncs(p, sn)
    ensures var q := Receive(p, sn);
            q.baseSeq == q.maxSeq == sn && q.cycles == p.cycles &&
            q.receivedPkts == Wrap32(p.receivedPkts + 1) &&
            Expected(q) == Wrap32(p.cycles * RTP_SEQ_MOD + 1)
  {}

  // ---------- packets that are refused ----------

  predicate Refuses(p: Participant, sn: u16) {
    UpdateSeq(p, sn).1 == GenericError
  }

  /** The packets of a run that are not refused. */
  function Accepted(p: Participant, seqs: seq<u16>): seq<u16> {
    if seqs == [] then []
    else
      var i := |seqs| - 1;
      if Refuses(Run(p, seqs[..i]), seqs[i]) then Accepted(p, seqs[..i]) else Accepted(p, seqs[..i]) + [seqs[i]]
  }

  predicate NeverResyncs(p: Participant, seqs: seq<u16>) {
    forall i :: 0 <= i < |seqs| ==> !Resyncs(Run(p, seqs[..i]), seqs[i])
  }

  predicate SameButRecord(p: Participant, q: Participant) {
    p == q.(badSeq := p.badSeq)
  }

  lemma CountsAlike(p: Participant, q: Participant)
    requires SameButRecord(p, q)
    ensures SameButRecord(Count(p), Count(q))
  {}

  lemma UpdatesAlike(p: Participant, q: Participant, sn: u16)
    requires SameButRecord(p, q) && !Resyncs(p, sn) && !Refuses(p, sn)
    ensures !Refuses(q, sn) && !Resyncs(q, sn) && SameButRecord(UpdateSeq(p, sn).0, UpdateSeq(q, sn).0)
    ensures UpdateSeq(p, sn).1 == UpdateSeq(q, sn).1
  {}

  lemma RecordDoesNotMatter(p: Participant, q: Participant, sn: u16)
    requires SameButRecord(p, q) && !Resyncs(p, sn)
    ensures Refuses(p, sn) ==> SameButRecord(Receive(p, sn), q)
    ensures !Refuses(p, sn) ==> !Refuses(q, sn) && !Resyncs(q, sn) && SameButRecord(Receive(p, sn), Receive(q, sn))
  {
    hide Count;
    if !Refuses(p, sn) {
      UpdatesAlike(p, q, sn);
      CountsAlike(UpdateSeq(p, sn).0, UpdateSeq(q, sn).0);
    }
  }

  /** Until a source is restarted, the packets it has refused leave no trace but the record of bad
      sequence numbers: without them it would have come to the same. */
  lemma {:induction false} RefusedLeaveNoTrace(p: Participant, seqs: seq<u16>)
    requires NeverResyncs(p, seqs)
    ensures SameButRecord(Run(p, seqs), Run(p, Accepted(p, seqs)))
    ensures LatestOf(p, Accepted(p, seqs)) == Untouched
  {
    hide SameButRecord, Receive, Resyncs, Refuses;
    if seqs == [] {
      SameAsItself(p);
    } else {
      var i := |seqs| - 1;
      var (q, r) := (Run(p, seqs[..i]), Run(p, Accepted(p, seqs[..i])));
      NeverResyncsPrefix(p, seqs);
      RefusedLeaveNoTrace(p, seqs[..i]);
      RecordDoesNotMatter(q, r, seqs[i]);
      if !Refuses(q, seqs[i]) {
        RunSnoc(p, Accepted(p, seqs[..i]), seqs[i]);
        LatestSnoc(p, Accepted(p, seqs[..i]), seqs[i]);
      }
    }
  }

  lemma SameAsItself(p: Participant)
    ensures SameButRecord(p, p)
  {}

  lemma NeverResyncsPrefix(p: Participant, seqs: seq<u16>)
    requires seqs != [] && NeverResyncs(p, seqs)
    ensures NeverResyncs(p, seqs[..|seqs| - 1]) && !Resyncs(Run(p, seqs[..|seqs| - 1]), seqs[|seqs| - 1])
  {
    hide Resyncs, Run;
    var pre := seqs[..|seqs| - 1];
    forall i | 0 <= i < |pre|
      ensures !Resyncs(Run(p, pre[..i]), pre[i])
    {
      assert pre[..i] == seqs[..i];
    }
  }

  lemma LatestSnoc(p: Participant, seqs: seq<u16>, sn: u16)
    requires !Refuses(Run(p, seqs), sn) && !Resyncs(Run(p, seqs), sn)
    ensures LatestOf(p, seqs + [sn]) == LatestOf(p, seqs)
  {
    hide Resyncs, Run;
    assert (seqs + [sn])[..|seqs|] == seqs;
  }

  /** Of true numbers that may be far off, those in the window around the highest one in the window
      before them. */
  function Near(m: int, ts: seq<int>): (r: seq<int>)
    ensures |r| <= |ts|
  {
    if ts == [] then []
    else
      var i := |ts| - 1;
      var near := Near(m, ts[..i]);
      if InWindow(ts[i] - MaxOf(m, near)) then near + [ts[i]] else near
  }

  /** A packet in the window, or one off by less than a revolution that is not numbered one past
      the last such packet. */
  predicate Fits(t: int, m: int, last: Option<int>) {
    InWindow(t - m) ||
    (MAX_DROPOUT - RTP_SEQ_MOD <= t - m <= RTP_SEQ_MOD - MAX_MISORDER &&
     (last.Some? ==> Low16(t) != Low16(last.value + 1)))
  }

  /** Far packets do not follow each other. */
  ghost predicate Isolated(m: int, ts: seq<int>) {
    ts == [] ||
    var i := |ts| - 1;
    Isolated(m, ts[..i]) && Fits(ts[i], MaxOf(m, Near(m, ts[..i])), LastFar(m, ts[..i]))
  }

  function LastFar(m: int, ts: seq<int>): Option<int> {
    if ts == [] then None
    else
      var i := |ts| - 1;
      if InWindow(ts[i] - MaxOf(m, Near(m, ts[..i]))) then LastFar(m, ts[..i]) else Some(ts[i])
  }

  lemma {:induction false} NearStaysInWindow(m: int, ts: seq<int>)
    ensures StaysInWindow(m, Near(m, ts))
  {
    if ts != [] {
      var i := |ts| - 1;
      NearStaysInWindow(m, ts[..i]);
      assert (Near(m, ts[..i]) + [ts[i]])[..|Near(m, ts[..i])|] == Near(m, ts[..i]);
    }
  }

  /** What p makes of ts is what it makes of those in the window, and the record is that of the
      last one far off. */
  ghost predicate Unimpressed(p: Participant, m: int, ts: seq<int>) {
    var (q, r) := (Run(p, Wire(ts)), Run(p, Wire(Near(m, ts))));
    && SameButRecord(q, r)
    && q.badSeq == (match LastFar(m, ts) case None => NO_BAD_SEQ case Some(t) => Low16(t + 1))
  }

  lemma FarIsRefused(p: Participant, r: Participant, m: int, t: int)
    requires p.probation == 0 && p.maxSeq == Low16(m) && p.badSeq != Low16(t) && SameButRecord(p, r)
    requires !InWindow(t - m) && MAX_DROPOUT - RTP_SEQ_MOD <= t - m <= RTP_SEQ_MOD - MAX_MISORDER
    ensures SameButRecord(Receive(p, Low16(t)), r) && Receive(p, Low16(t)).badSeq == Low16(t + 1)
  {
    WindowIsExact(p, m, t);
  }

  lemma SameNumbers(p: Participant, q: Participant)
    requires SameButRecord(p, q)
    ensures p.probation == q.probation && p.maxSeq == q.maxSeq
  {}

  lemma NearIsAccepted(p: Participant, r: Participant, m: int, t: int)
    requires SameButRecord(p, r) && r.probation == 0 && r.maxSeq == Low16(m) && InWindow(t - m)
    ensures SameButRecord(Receive(p, Low16(t)), Receive(r, Low16(t))) && Receive(p, Low16(t)).badSeq == p.badSeq
  {
    hide Expected, Wrap32, Signed32, Low16;
    NotFar(p, m, t);
    RecordDoesNotMatter(p, r, Low16(t));
  }

  lemma NotFar(p: Participant, m: int, t: int)
    requires p.maxSeq == Low16(m) && InWindow(t - m)
    ensures !IsFar(p, Low16(t))
  {
    WindowIsExact(p, m, t);
  }

  lemma RunWireSnoc(p: Participant, ts: seq<int>, t: int)
    ensures Run(p, Wire(ts + [t])) == Receive(Run(p, Wire(ts)), Low16(t))
  {
    assert (ts + [t])[..|ts|] == ts;
    RunSnoc(p, Wire(ts), Low16(t));
  }

  lemma NearSnoc(m: int, ts: seq<int>, t: int)
    ensures var near := InWindow(t - MaxOf(m, Near(m, ts)));
            Near(m, ts + [t]) == (if near then Near(m, ts) + [t] else Near(m, ts)) &&
            LastFar(m, ts + [t]) == (if near then LastFar(m, ts) else Some(t))
  {
    hide MaxOf, InWindow;
    assert (ts + [t])[..|ts|] == ts;
  }

  lemma StaysUnimpressed(p: Participant, m: int, ts: seq<int>, t: int)
    requires Unimpressed(p, m, ts)
    requires var (r, m') := (Run(p, Wire(Near(m, ts))), MaxOf(m, Near(m, ts)));
             r.probation == 0 && r.maxSeq == Low16(m') && Fits(t, m', LastFar(m, ts))
    ensures Unimpressed(p, m, ts + [t])
  {
    hide Run, Wire, Near, LastFar, MaxOf, Receive, Low16, SameButRecord;
    var (q, r, m') := (Run(p, Wire(ts)), Run(p, Wire(Near(m, ts))), MaxOf(m, Near(m, ts)));
    RunWireSnoc(p, ts, t);
    NearSnoc(m, ts, t);
    if InWindow(t - m') {
      RunWireSnoc(p, Near(m, ts), t);
      NearIsAccepted(q, r, m', t);
    } else {
      SameNumbers(q, r);
      FarIsRefused(q, r, m', t);
    }
  }

  /** Packets far off that are no restart are dropped: the tracker goes on as if they had not come. */
  lemma {:induction false} FarPacketsAreDropped(p: Participant, m: int, ts: seq<int>)
    requires p.probation == 0 && p.maxSeq == Low16(m) && p.badSeq == NO_BAD_SEQ && Isolated(m, ts)
    ensures Unimpressed(p, m, ts)
  {
    hide Receive, Low16, Tracked, StaysInWindow, Near, LastFar, Fits;
    if ts == [] {
      NothingFar(p, m);
    } else {
      var i := |ts| - 1;
      FarPacketsAreDropped(p, m, ts[..i]);
      NearStaysInWindow(m, ts[..i]);
      var near := Near(m, ts[..i]);
      TracksTrueMaximum(p, m, near);
      TrackedIs(p, m, Run(p, Wire(near)), MaxOf(m, near), |near|);
      assert ts == ts[..i] + [ts[i]];
      StaysUnimpressed(p, m, ts[..i], ts[i]);
    }
  }

  lemma NothingFar(p: Participant, m: int)
    requires p.badSeq == NO_BAD_SEQ
    ensures Unimpressed(p, m, [])
  {}

  lemma TrackedIs(p: Participant, m: int, q: Participant, m': int, n: nat)
    requires Tracked(p, m, q, m', n)
    ensures q.probation == 0 && q.maxSeq == Low16(m')
  {}

  /** So the extended maximum follows the highest true number in the window, whatever far packets
      come between. */
  lemma TracksAmongFarPackets(p: Participant, m: int, ts: seq<int>)
    requires p.probation == 0 && p.maxSeq == Low16(m) && p.badSeq == NO_BAD_SEQ && Isolated(m, ts)
    ensures var (q, near) := (Run(p, Wire(ts)), Near(m, ts));
            q.maxSeq == Low16(MaxOf(m, near)) && Extended(q) == Wrap32(Extended(p) + MaxOf(m, near) - m) &&
            q.baseSeq == p.baseSeq && q.receivedPkts == Wrap32(p.receivedPkts + |near|)
  {
    hide Run, Wire, Near, MaxOf, StaysInWindow, Isolated;
    FarPacketsAreDropped(p, m, ts);
    NearStaysInWindow(m, ts);
    TracksTrueMaximum(p, m, Near(m, ts));
  }

  // ---------- loss accounting ----------

  /** The true numbers after base b up to the highest one received. */
  ghost function After(b: int, m: int): (r: set<int>)
    ensures forall x :: x in r <==> b < x <= m
    decreases m - b
  {
    if m <= b then {} else After(b, m - 1) + {m}
  }

  lemma {:induction false} AfterSize(b: int, m: int)
    requires b <= m
    ensures |After(b, m)| == m - b
    decreases m - b
  {
    if b < m {
      AfterSize(b, m - 1);
    }
  }

  ghost function Seen(b: int, ts: seq<int>): set<int> {
    set t | t in ts && b < t
  }

  ghost function Missing(b: int, ts: seq<int>): set<int> {
    After(b, MaxOf(b, ts)) - Seen(b, ts)
  }

  /** How many of the packets ts brought nothing new: repeats and packets not after base b. */
  ghost function Surplus(b: int, ts: seq<int>): int {
    |ts| - |Seen(b, ts)|
  }

  lemma MissingSize(b: int, ts: seq<int>)
    ensures |Missing(b, ts)| == MaxOf(b, ts) - b - |Seen(b, ts)|
  {
    AfterSize(b, MaxOf(b, ts));
    assert Seen(b, ts) <= After(b, MaxOf(b, ts));
  }

  lemma {:induction false} DistinctHasNoSurplus(b: int, ts: seq<int>)
    requires forall i, j :: 0 <= i < j < |ts| ==> ts[i] != ts[j]
    requires forall t :: t in ts ==> b < t
    ensures Surplus(b, ts) == 0
  {
    if ts == [] {
      assert Seen(b, ts) == {};
    } else {
      var i := |ts| - 1;
      assert ts == ts[..i] + [ts[i]];
      forall t | t in ts[..i] ensures b < t { assert t in ts; }
      DistinctHasNoSurplus(b, ts[..i]);
      assert ts[i] in ts;
      assert Seen(b, ts) == Seen(b, ts[..i]) + {ts[i]};
    }
  }

  /** Packets seqs are what it took to make the source valid. */
  ghost predicate JustValidated(seqs: seq<u16>) {
    |seqs| > 1 && SourceRun(seqs).probation == 0 && SourceRun(seqs[..|seqs| - 1]).probation != 0
  }

  /** At the end of probation two packets are counted, but only the last one is expected. */
  lemma ValidatedSource(seqs: seq<u16>)
    requires JustValidated(seqs)
    ensures var p := SourceRun(seqs);
            p.baseSeq == p.maxSeq == seqs[|seqs| - 1] && p.cycles == 0 &&
            p.receivedPkts == 2 && p.lostPkts == 0 && Expected(p) == 1 && p.badSeq == NO_BAD_SEQ
  {
    var i := |seqs| - 1;
    ProbationEndsExactly(seqs[..i]);
    assert seqs == seqs[..i] + [seqs[i]];
    SourceRunSnoc(seqs[..i], seqs[i]);
  }

  lemma ExpectedIs(p: Participant, b: int, m: int)
    requires b <= m < b + 0x8000_0000
    requires p.baseSeq == Low16(b) && Extended(p) == Wrap32(Low16(b) + m - b)
    ensures Expected(p) == m - b + 1
  {}

  lemma CountedLoss(p: Participant, m: int, n: int)
    requires 0 <= m < 0x8000_0000 && 0 <= n < 0x8000_0000
    requires Expected(p) == m && Wrap32(p.receivedPkts + 1) == n
    ensures Count(p).lostPkts == Max(0, m - n)
  {}

  /** A source counted from true number b on, of which n packets have been received by then. */
  ghost predicate AtBase(p: Participant, b: int, n: nat) {
    && p.probation == 0 && p.maxSeq == p.baseSeq == Low16(b)
    && p.cycles == 0 && p.receivedPkts == n && p.lostPkts == 0
  }

  lemma FiguresFromBase(p: Participant, b: int, k: nat, q: Participant, m: int, n: nat)
    requires AtBase(p, b, k) && Tracked(p, b, q, m, n)
    requires b <= m < b + 0x7fff_ffff && n + k < 0x8000_0000
    ensures Expected(q) == m - b + 1 && q.receivedPkts == n + k
  {
    assert Extended(p) == Low16(b);
    ExpectedIs(q, b, m);
  }

  lemma LossAfterBase(p: Participant, b: int, k: nat, ts: seq<int>)
    requires AtBase(p, b, k) && StaysInWindow(b, ts) && |ts| + k > 0
    requires MaxOf(b, ts) - b < 0x7fff_ffff && |ts| + k < 0x8000_0000
    ensures var q := Run(p, Wire(ts));
            Expected(q) == MaxOf(b, ts) - b + 1 && q.receivedPkts == |ts| + k &&
            q.lostPkts == Max(0, Expected(q) - q.receivedPkts)
  {
    hide Expected, Receive, Tracked;
    var q := Run(p, Wire(ts));
    TracksTrueMaximum(p, b, ts);
    FiguresFromBase(p, b, k, q, MaxOf(b, ts), |ts|);
    if ts != [] {
      var i := |ts| - 1;
      var r := Run(p, Wire(ts[..i]));
      TracksTrueMaximum(p, b, ts[..i]);
      LastIsCounted(r, MaxOf(b, ts[..i]), ts[i]);
      RunSnoc(p, Wire(ts[..i]), Low16(ts[i]));
    }
  }

  lemma LastIsCounted(r: Participant, m: int, t: int)
    requires r.probation == 0 && r.maxSeq == Low16(m) && InWindow(t - m)
    ensures var q := Receive(r, Low16(t));
            Expected(q) < 0x8000_0000 && q.receivedPkts < 0x8000_0000 ==>
              q.lostPkts == Max(0, Expected(q) - q.receivedPkts)
  {
    UpdateInWindow(r, m, t);
    var u := UpdateSeq(r, Low16(t)).0;
    var q := Receive(r, Low16(t));
    assert q == Count(u) && Expected(q) == Expected(u);
    if Expected(q) < 0x8000_0000 && q.receivedPkts < 0x8000_0000 {
      CountedLoss(u, Expected(q), q.receivedPkts);
    }
  }

  /** Loss accounting counts the gaps: from the end of probation at true number b, the loss
      figure is the number of true numbers missing, less the packets that filled no gap, less
      one for the packet counted before probation. */
  lemma LossCountsGaps(seqs: seq<u16>, b: int, ts: seq<int>)
    requires JustValidated(seqs) && seqs[|seqs| - 1] == Low16(b)
    requires StaysInWindow(b, ts)
    requires MaxOf(b, ts) - b < 0x7fff_ffff && |ts| < 0x7fff_fffe
    ensures var p := SourceRun(seqs + Wire(ts));
            && Expected(p) == MaxOf(b, ts) - b + 1
            && p.receivedPkts == |ts| + 2
            && p.lostPkts == Max(0, |Missing(b, ts)| - Surplus(b, ts) - 1)
  {
    ValidatedSource(seqs);
    LossAfterBase(SourceRun(seqs), b, 2, ts);
    MissingSize(b, ts);
    SourceRunConcat(seqs, Wire(ts));
  }

  /** Nor do far packets that are refused change the figures. */
  lemma LossCountsGapsAmongFarPackets(seqs: seq<u16>, b: int, ts: seq<int>)
    requires JustValidated(seqs) && seqs[|seqs| - 1] == Low16(b) && Isolated(b, ts)
    requires MaxOf(b, Near(b, ts)) - b < 0x7fff_ffff && |ts| < 0x7fff_fffe
    ensures var (p, near) := (SourceRun(seqs + Wire(ts)), Near(b, ts));
            && Expected(p) == MaxOf(b, near) - b + 1
            && p.receivedPkts == |near| + 2
            && p.lostPkts == Max(0, |Missing(b, near)| - Surplus(b, near) - 1)
  {
    hide Run, Wire, Near, MaxOf, StaysInWindow, Isolated, Missing, Surplus;
    var (p, near) := (SourceRun(seqs), Near(b, ts));
    ValidatedSource(seqs);
    NearStaysInWindow(b, ts);
    LossCountsGaps(seqs, b, near);
    FarPacketsAreDropped(p, b, ts);
    SourceRunConcat(seqs, Wire(ts));
    SourceRunConcat(seqs, Wire(near));
  }

  // ---------- sources that join by a report ----------

  /** A source first heard of by RTCP starts without probation at number 0: every number before
      its first packet counts as lost, or else that packet is refused or counted as an old one. */
  lemma FirstOfAnnounced(sn: u16)
    ensures var q := Receive(ZERO_STATS, sn);
            q.lostPkts == (if sn < MAX_DROPOUT then sn else 0) &&
            q.receivedPkts == (if IsFar(ZERO_STATS, sn) then 0 else 1) &&
            (IsFar(ZERO_STATS, sn) <==> MAX_DROPOUT <= sn <= RTP_SEQ_MOD - MAX_MISORDER)
  {
    assert Ahead(ZERO_STATS, sn) == sn;
    var u := UpdateSeq(ZERO_STATS, sn).0;
    if sn < MAX_DROPOUT {
      assert u == ZERO_STATS.(maxSeq := sn);
      CountedLoss(u, sn + 1, 1);
    } else if !IsFar(ZERO_STATS, sn) {
      assert u == ZERO_STATS;
      CountedLoss(u, 1, 1);
    }
  }

  /** Its loss is what is missing of all numbers from 0 on. */
  lemma AnnouncedLossCountsFromZero(ts: seq<int>)
    requires ts != [] && StaysInWindow(0, ts) && MaxOf(0, ts) < 0x7fff_ffff && |ts| < 0x8000_0000
    ensures var q := Run(ZERO_STATS, Wire(ts));
            Expected(q) == MaxOf(0, ts) + 1 && q.receivedPkts == |ts| &&
            q.lostPkts == Max(0, |Missing(0, ts)| - Surplus(0, ts) + 1)
  {
    hide Run, Wire, MaxOf, StaysInWindow, Missing, Expected;
    LossAfterBase(ZERO_STATS, 0, 0, ts);
    MissingSize(0, ts);
  }
}
