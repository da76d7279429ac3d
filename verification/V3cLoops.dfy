/**
 * When the two nested loops of mmap_v3c_file in examples/v3c/v3c_util.cc end. Positions are
 * 64-bit numbers, and a size that takes one past 2^64 leads back into the file.
 */
module V3cLoops {
  import opened Bytes
  import opened Wrappers
  import opened Orbits
  import opened V3cFormat
  import opened V3cParser

  // ---------- the loop over NAL units ----------

  function NalStep(b: seq<byte>, end: nat, precision: nat): Step {
    (p: nat) => if p < end && p + precision <= |b| then Some(Hop(b, p, precision)) else None
  }

  lemma {:induction false} RunningNals(b: seq<byte>, p: nat, end: nat, precision: nat, rounds: nat)
    ensures ReadNals(b, p, end, precision, rounds).Running? <==>
            Orbit(NalStep(b, end, precision), p, rounds + 1).Some?
    decreases rounds
  {
    hide Number, Orbit;
    var next := NalStep(b, end, precision);
    FirstStep(next, p, rounds);
    if next(p).Some? {
      if rounds == 0 {
        OrbitStart(next, Hop(b, p, precision));
      } else {
        RunningNals(b, Hop(b, p, precision), end, precision, rounds - 1);
      }
    }
  }

  lemma OrbitStart(next: Step, p: nat)
    ensures Orbit(next, p, 0) == Some(p)
  {}

  lemma {:induction false} MoreNalRounds(b: seq<byte>, p: nat, end: nat, precision: nat, r: nat, s: nat)
    requires r <= s && !ReadNals(b, p, end, precision, r).Running?
    ensures ReadNals(b, p, end, precision, s) == ReadNals(b, p, end, precision, r)
    decreases r
  {
    if p < end && p + precision <= |b| {
      MoreNalRounds(b, Hop(b, p, precision), end, precision, r - 1, s - 1);
    }
  }

  /** The loop over NAL units never ends if and only if it comes back to a position; else it
      takes no more rounds than the file has octets. */
  lemma NalLoopIsExact(b: seq<byte>, p: nat, end: nat, precision: nat, rounds: nat)
    requires precision > 0
    ensures Returns(NalStep(b, end, precision), p) ==> ReadNals(b, p, end, precision, rounds).Running?
    ensures rounds >= |b| && !Returns(NalStep(b, end, precision), p) ==>
              !ReadNals(b, p, end, precision, rounds).Running?
  {
    hide Number, Orbit, ReadNals, Hop;
    var next := NalStep(b, end, precision);
    RunningNals(b, p, end, precision, rounds);
    if i: nat, j: nat :| ReturnsAt(next, p, i, j) {
      GoesRound(next, p, i, j, rounds + 1);
    } else if rounds >= |b| && Orbit(next, p, rounds + 1).Some? {
      LongRunReturns(next, p, |b|, rounds + 1);
    }
  }

  lemma LongRunReturns(next: Step, p: nat, n: nat, k: nat)
    requires forall q: nat :: next(q).Some? ==> q < n
    requires k > n && Orbit(next, p, k).Some?
    ensures Returns(next, p)
  {
    EarlierGoesOn(next, p, n + 1, k);
    MustReturn(next, p, n);
  }

  // ---------- one unit ----------

  /** The NAL units of the unit at p are never done with. */
  ghost predicate UnitTurns(b: seq<byte>, p: nat, v: nat) {
    p < |b| && p + v <= |b| && ReadHeader(b, p, v).Some? &&
    var h := ReadHeader(b, p, v).value;
    !h.Vps? &&
    Returns(NalStep(b, (p + v + ReadSize(b, p, v)) % WRAP, ReadPrecision(b, p + v, h)), NalStart(h, p + v))
  }

  lemma UnitLoopIsExact(b: seq<byte>, p: nat, v: nat, rounds: nat)
    requires p < |b| && p + v <= |b|
    ensures UnitTurns(b, p, v) ==> ReadUnit(b, p, v, rounds).Running?
    ensures rounds >= |b| && !UnitTurns(b, p, v) ==> !ReadUnit(b, p, v, rounds).Running?
  {
    hide Number, ReadNals, Returns;
    if ReadHeader(b, p, v).Some? {
      var (h, q) := (ReadHeader(b, p, v).value, p + v);
      NalLoopIsExact(b, NalStart(h, q), (q + ReadSize(b, p, v)) % WRAP, ReadPrecision(b, q, h), rounds);
    }
  }

  lemma MoreUnitRounds(b: seq<byte>, p: nat, v: nat, r: nat, s: nat)
    requires p + v <= |b| && r <= s && !ReadUnit(b, p, v, r).Running?
    ensures ReadUnit(b, p, v, s) == ReadUnit(b, p, v, r)
  {
    hide Number, ReadNals;
    if ReadHeader(b, p, v).Some? && !ReadHeader(b, p, v).value.Vps? {
      var (h, q) := (ReadHeader(b, p, v).value, p + v);
      MoreNalRounds(b, NalStart(h, q), (q + ReadSize(b, p, v)) % WRAP, ReadPrecision(b, q, h), r, s);
    }
  }

  // ---------- the loop over units ----------

  function UnitStep(b: seq<byte>, v: nat): Step {
    (p: nat) => if p < |b| && p + v <= |b| && ReadUnit(b, p, v, |b|).Done? then Some(Hop(b, p, v)) else None
  }

  lemma {:induction false} MoreRounds(b: seq<byte>, p: nat, v: nat, m: nat, n: nat, r: nat, s: nat)
    requires m <= n && r <= s && !ReadUnits(b, p, v, m, r).Running?
    ensures ReadUnits(b, p, v, n, s) == ReadUnits(b, p, v, m, r)
    decreases r
  {
    hide ReadUnit, Number;
    if p < |b| && p + v <= |b| {
      MoreUnitRounds(b, p, v, m, n);
      if ReadUnit(b, p, v, m).Done? {
        MoreRounds(b, Hop(b, p, v), v, m, n, r - 1, s - 1);
      }
    }
  }

  /** While the loop over units goes on, the parser is running. */
  lemma {:induction false} RunningUnits(b: seq<byte>, p: nat, v: nat, m: nat, rounds: nat)
    requires Orbit(UnitStep(b, v), p, rounds + 1).Some?
    ensures ReadUnits(b, p, v, m, rounds).Running?
    decreases rounds
  {
    hide ReadUnit, Number, Orbit;
    FirstStep(UnitStep(b, v), p, rounds);
    if rounds > 0 {
      SameOrRunning(b, p, v, m);
      RunningUnits(b, Hop(b, p, v), v, m, rounds - 1);
    }
  }

  lemma SameOrRunning(b: seq<byte>, p: nat, v: nat, m: nat)
    requires p + v <= |b|
    ensures ReadUnit(b, p, v, |b|).Done? ==> !ReadUnit(b, p, v, m).Overrun?
  {
    hide ReadUnit, Number;
    if m <= |b| && !ReadUnit(b, p, v, m).Running? {
      MoreUnitRounds(b, p, v, m, |b|);
    } else if ReadUnit(b, p, v, |b|).Done? && m > |b| {
      MoreUnitRounds(b, p, v, |b|, m);
    }
  }

  /** If the k-th unit is never done with, the parser is running. */
  lemma {:induction false} StaysInUnit(b: seq<byte>, p: nat, v: nat, k: nat, m: nat, rounds: nat)
    requires Orbit(UnitStep(b, v), p, k).Some? && UnitTurns(b, Orbit(UnitStep(b, v), p, k).value, v)
    ensures ReadUnits(b, p, v, m, rounds).Running?
    decreases rounds
  {
    hide ReadUnit, Number, Orbit, UnitTurns;
    var next := UnitStep(b, v);
    if k == 0 {
      OrbitStart(next, p);
      TurnsInside(b, p, v);
      UnitLoopIsExact(b, p, v, m);
    } else {
      FirstStep(next, p, k - 1);
      SameOrRunning(b, p, v, m);
      if rounds > 0 {
        StaysInUnit(b, Hop(b, p, v), v, k - 1, m, rounds - 1);
      }
    }
  }

  lemma TurnsInside(b: seq<byte>, p: nat, v: nat)
    requires UnitTurns(b, p, v)
    ensures p < |b| && p + v <= |b|
  {}

  /** Some unit the loop gets to is never done with. */
  ghost predicate SomeUnitTurns(b: seq<byte>, p: nat, v: nat) {
    exists k: nat :: TurnsAfter(b, p, v, k)
  }

  ghost predicate TurnsAfter(b: seq<byte>, p: nat, v: nat, k: nat) {
    Orbit(UnitStep(b, v), p, k).Some? && UnitTurns(b, Orbit(UnitStep(b, v), p, k).value, v)
  }

  /** If every unit is done with, only the loop over units can go on. */
  lemma {:induction false} OnlyUnitsGoOn(b: seq<byte>, p: nat, v: nat, rounds: nat)
    requires ReadUnits(b, p, v, |b|, rounds).Running? && !SomeUnitTurns(b, p, v)
    ensures Orbit(UnitStep(b, v), p, rounds).Some? && Orbit(UnitStep(b, v), p, rounds).value < |b|
    decreases rounds
  {
    hide ReadUnit, Number, Orbit, UnitTurns;
    var next := UnitStep(b, v);
    OrbitStart(next, p);
    if rounds > 0 {
      assert !TurnsAfter(b, p, v, 0);
      UnitLoopIsExact(b, p, v, |b|);
      FirstStep(next, p, rounds - 1);
      var q := Hop(b, p, v);
      forall k: nat
        ensures !TurnsAfter(b, q, v, k)
      {
        FirstStep(next, p, k);
        assert !TurnsAfter(b, p, v, k + 1);
      }
      OnlyUnitsGoOn(b, q, v, rounds - 1);
    }
  }

  // ---------- whole files ----------

  /** A loop comes back to a position: that over units, or that over the NAL units of a unit the
      parser gets to. */
  ghost predicate Endless(b: seq<byte>) {
    b != [] &&
    var v: nat := b[0] / 32 + 1;
    Returns(UnitStep(b, v), 1) || SomeUnitTurns(b, 1, v)
  }

  lemma EndlessRuns(b: seq<byte>, rounds: nat)
    requires Endless(b)
    ensures ReadFile(b, rounds).Running?
  {
    hide ReadUnits, Orbit, UnitStep, UnitTurns, Sorted;
    var v: nat := b[0] / 32 + 1;
    var next := UnitStep(b, v);
    if i: nat, j: nat :| ReturnsAt(next, 1, i, j) {
      GoesRound(next, 1, i, j, rounds + 1);
      RunningUnits(b, 1, v, rounds, rounds);
    } else {
      var k: nat :| TurnsAfter(b, 1, v, k);
      StaysInUnit(b, 1, v, k, rounds, rounds);
    }
  }

  lemma RunningIsEndless(b: seq<byte>)
    requires ReadFile(b, |b|).Running?
    ensures Endless(b)
  {
    hide ReadUnits, ReadUnit, Orbit, SomeUnitTurns, Returns, Number, Sorted;
    var v: nat := b[0] / 32 + 1;
    if !SomeUnitTurns(b, 1, v) {
      OnlyUnitsGoOn(b, 1, v, |b|);
      MustReturn(UnitStep(b, v), 1, |b|);
    }
  }

  /** mmap_v3c_file never returns if and only if one of its loops comes back to a position; else
      neither loop takes more rounds than the file has octets. */
  lemma EndsExactly(b: seq<byte>)
    ensures Endless(b) <==> forall rounds: nat :: ReadFile(b, rounds).Running?
    ensures Endless(b) <==> ReadFile(b, |b|).Running?
    ensures !Endless(b) ==> forall rounds: nat :: rounds >= |b| ==> ReadFile(b, rounds) == ReadFile(b, |b|)
  {
    hide ReadUnits, Endless, Sorted;
    if Endless(b) {
      forall rounds: nat
        ensures ReadFile(b, rounds).Running?
      {
        EndlessRuns(b, rounds);
      }
    } else {
      if ReadFile(b, |b|).Running? {
        RunningIsEndless(b);
      }
      forall rounds: nat | rounds >= |b|
        ensures ReadFile(b, rounds) == ReadFile(b, |b|)
      {
        if b != [] {
          MoreRounds(b, 1, b[0] / 32 + 1, |b|, rounds, |b|, rounds);
        }
      }
    }
  }

  // ---------- sizes that cannot wrap around ----------

  lemma NoReturn(next: Step, p: nat)
    requires forall k: nat, q: nat :: Orbit(next, p, k) == Some(q) && next(q).Some? ==> next(q).value > q
    ensures !Returns(next, p)
  {
    if i: nat, j: nat :| ReturnsAt(next, p, i, j) {
      ForwardOnly(next, p, i, j);
    }
  }

  lemma {:induction false} PowerBelow56(n: nat)
    requires n <= 7
    ensures Pow2(8 * n) <= 0x100_0000_0000_0000
    decreases 7 - n
  {
    hide Pow2;
    if n < 7 {
      PowerBelow56(n + 1);
      Pow2Byte(8 * n);
    } else {
      PowersUpTo8();
      Pow2Byte(8);
      Pow2Byte(16);
      Pow2Byte(24);
      Pow2Byte(32);
      Pow2Byte(40);
      Pow2Byte(48);
    }
  }

  /** Seven octets of size do not take a position in half the range past its end. */
  lemma HopsForward(b: seq<byte>, p: nat, precision: nat)
    requires 0 < precision <= 7 && p + precision <= |b| <= WRAP / 2
    ensures Hop(b, p, precision) > p
  {
    hide Number, Pow2;
    NumberBound(b[p..p + precision]);
    PowerBelow56(precision);
  }

  /** If the unit at p is one of an atlas, its sizes have at most seven octets. */
  predicate NarrowAt(b: seq<byte>, p: nat, v: nat) {
    ReadHeader(b, p, v).Some? && OfAtlas(ReadHeader(b, p, v).value) ==> b[p + v + V3C_HDR_LEN] < 0xE0
  }

  predicate NarrowAfter(b: seq<byte>, p: nat, v: nat, k: nat) {
    Orbit(UnitStep(b, v), p, k).Some? ==> NarrowAt(b, Orbit(UnitStep(b, v), p, k).value, v)
  }

  ghost predicate Narrow(b: seq<byte>, v: nat) {
    forall k: nat :: NarrowAfter(b, 1, v, k)
  }

  lemma NarrowUnitEnds(b: seq<byte>, p: nat, v: nat)
    requires |b| <= WRAP / 2 && NarrowAt(b, p, v)
    ensures !UnitTurns(b, p, v)
  {
    hide Number, ParseHeader, Span, Orbit, Hop, Returns;
    if p < |b| && p + v <= |b| && ReadHeader(b, p, v).Some? {
      var h := ReadHeader(b, p, v).value;
      if OfAtlas(h) {
        SpanOfAtlas(b, p, v);
      }
      var precision := ReadPrecision(b, p + v, h);
      var next := NalStep(b, (p + v + ReadSize(b, p, v)) % WRAP, precision);
      forall q: nat | next(q).Some?
        ensures next(q).value > q
      {
        HopsForward(b, q, precision);
      }
      NoReturn(next, NalStart(h, p + v));
    }
  }

  lemma SpanOfAtlas(b: seq<byte>, p: nat, v: nat)
    requires ReadHeader(b, p, v).Some? && OfAtlas(ReadHeader(b, p, v).value)
    ensures p + v + V3C_HDR_LEN < |b|
  {}

  /** mmap_v3c_file returns if its first octet and the precision octet of every atlas unit it gets
      to are below 0xe0. */
  lemma NarrowSizesEnd(b: seq<byte>)
    requires b != [] && |b| <= WRAP / 2 && b[0] < 0xE0
    requires Narrow(b, b[0] / 32 + 1)
    ensures !Endless(b)
  {
    hide Number, Orbit, UnitTurns, ReadUnit, Hop, NarrowAt, Returns;
    var v: nat := b[0] / 32 + 1;
    var next := UnitStep(b, v);
    forall k: nat
      ensures !TurnsAfter(b, 1, v, k)
    {
      assert NarrowAfter(b, 1, v, k);
      if Orbit(next, 1, k).Some? {
        NarrowUnitEnds(b, Orbit(next, 1, k).value, v);
      }
    }
    forall q: nat | next(q).Some?
      ensures next(q).value > q
    {
      HopsForward(b, q, v);
    }
    NoReturn(next, 1);
  }

  // ---------- files on which the parser hangs ----------

  lemma {:induction false} AllOnes(n: nat)
    ensures Number(seq(n, _ => 0xFF)) == Pow2(8 * n) - 1
  {
    if n > 0 {
      var b: seq<byte> := seq(n, _ => 0xFF);
      assert b[..n - 1] == seq(n - 1, _ => 0xFF);
      AllOnes(n - 1);
      Pow2Byte(8 * (n - 1));
    }
  }

  /** The size 2^64 - 8 leads back to where it is written. */
  const BACK: seq<byte> := [0xFF, 0xFF, 0xFF, 0xFF, 0xFF, 0xFF, 0xFF, 0xF8]

  lemma BackIs()
    ensures Number(BACK) == WRAP - 8
  {
    assert BACK[..7] == seq(7, _ => 0xFF);
    AllOnes(7);
    PowersUpTo8();
    Pow2Byte(8);
    Pow2Byte(16);
    Pow2Byte(24);
    Pow2Byte(32);
    Pow2Byte(40);
    Pow2Byte(48);
  }

  lemma HopsBack(b: seq<byte>, p: nat)
    requires At(b, p, BACK) && p < WRAP
    ensures Hop(b, p, 8) == p
  {
    hide Number;
    BackIs();
  }

  lemma StaysPut(next: Step, p: nat)
    requires next(p) == Some(p)
    ensures Returns(next, p)
  {
    assert Orbit(next, p, 1) == Some(p) by { assert Orbit(next, p, 0) == Some(p); }
    assert ReturnsAt(next, p, 0, 1);
  }

  /** One parameter set of 2^64 - 8 octets: the loop over units finds it again and again. */
  lemma HangsOnUnits()
    ensures forall rounds: nat :: ReadFile([0xE0] + BACK + [0], rounds).Running?
  {
    hide Number;
    var b := [0xE0] + BACK + [0];
    assert b[1..9] == BACK;
    HopsBack(b, 1);
    assert ReadHeader(b, 1, 8) == Some(Vps);
    StaysPut(UnitStep(b, 8), 1);
    EndsExactly(b);
  }

  /** An atlas unit with a NAL unit of that size: the loop over NAL units finds it again and again. */
  lemma HangsOnNals()
    ensures forall rounds: nat :: ReadFile([0, 13, 8, 0, 0, 0, 0xE0] + BACK, rounds).Running?
  {
    hide Number;
    var b := [0, 13, 8, 0, 0, 0, 0xE0] + BACK;
    assert b[7..15] == BACK;
    HopsBack(b, 7);
    OneOctet(b, 1);
    assert ReadHeader(b, 1, 1).Some? && OfAtlas(ReadHeader(b, 1, 1).value);
    StaysPut(NalStep(b, 15, 8), 7);
    assert UnitTurns(b, 1, 1);
    assert TurnsAfter(b, 1, 1, 0);
    EndsExactly(b);
  }

  lemma OneOctet(b: seq<byte>, p: nat)
    requires p < |b|
    ensures ReadSize(b, p, 1) == b[p]
  {
    var w := b[p..p + 1];
    assert w[..0] == [] && w[0] == b[p];
    assert Number(w) == Number(w[..0]) * 0x100 + w[0];
  }
}
