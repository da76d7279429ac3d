/** ntp_diff_ms of src/clock.cc: milliseconds between two NTP timestamps. */
module Clock {
  import opened Bytes

  type u64 = x: int | 0 <= x < 0x1_0000_0000_0000_0000

  const UINT32_MAX := 0xffff_ffff

  /** Seconds and fraction of a timestamp. */
  function Seconds(ntp: u64): u32 {
    ntp / 0x1_0000_0000
  }

  function Fraction(ntp: u64): u32 {
    ntp % 0x1_0000_0000
  }

  function Micros(ntp: u64): nat {
    Fraction(ntp) * 1000000 / 0x1_0000_0000
  }

  /** The subtractions wrap, the one of the seconds at 32 bits and the rest at 64. */
  function UncappedDiff(older: u64, newer: u64): nat {
    ((Seconds(newer) - Seconds(older)) % 0x1_0000_0000 * 1000000 + (Micros(newer) - Micros(older)))
    % 0x1_0000_0000_0000_0000 / 1000
  }

  function NtpDiffMs(older: u64, newer: u64): (r: u32) {
    var r := UncappedDiff(older, newer);
    if r > UINT32_MAX then UINT32_MAX else r
  }

  /** Whole microseconds of a timestamp. */
  function TotalMicros(ntp: u64): nat {
    Seconds(ntp) * 1000000 + Micros(ntp)
  }

  lemma MicrosBound(ntp: u64)
    ensures Micros(ntp) < 1000000
    ensures Fraction(ntp) * 1000000 - 0x1_0000_0000 < Micros(ntp) * 0x1_0000_0000 <= Fraction(ntp) * 1000000
  {
    Floor(Fraction(ntp) * 1000000, 0x1_0000_0000);
  }

  lemma Floor(x: int, m: nat)
    requires m > 0
    ensures x - m < x / m * m <= x
  {}

  /** A timestamp is less than a microsecond ahead of its whole microseconds. */
  lemma MicrosTruncate(ntp: u64)
    ensures ntp * 1000000 - 0x1_0000_0000 < TotalMicros(ntp) * 0x1_0000_0000 <= ntp * 1000000
  {
    MicrosBound(ntp);
    assert ntp == Seconds(ntp) * 0x1_0000_0000 + Fraction(ntp);
  }

  /** In order, nothing is left of the wrap-around. */
  lemma DiffOfMicros(older: u64, newer: u64)
    requires older <= newer
    ensures TotalMicros(newer) >= TotalMicros(older)
    ensures UncappedDiff(older, newer) == (TotalMicros(newer) - TotalMicros(older)) / 1000
  {
    MicrosBound(older);
    MicrosBound(newer);
    var (s: int, u: int) := (Seconds(newer) - Seconds(older), Micros(newer) - Micros(older));
    assert s >= 0;
    if s == 0 {
      assert Fraction(older) <= Fraction(newer);
      DivideKeepsOrder(Fraction(older) * 1000000, Fraction(newer) * 1000000, 0x1_0000_0000);
    }
    DivModUnique(s, 0x1_0000_0000, 0, s);
    DivModUnique(s * 1000000 + u, 0x1_0000_0000_0000_0000, 0, s * 1000000 + u);
  }

  lemma DivideKeepsOrder(x: nat, y: nat, m: nat)
    requires x <= y && m > 0
    ensures x / m <= y / m
  {
    Floor(x, m);
    Floor(y, m);
    ProductAtLeast(x / m - y / m, m);
  }

  /** The uncapped result is more than -1.001 and less than 0.001 milliseconds away from the
      exact difference, (newer - older) * 1000 / 2^32. */
  lemma DiffIsClose(older: u64, newer: u64)
    requires older <= newer
    ensures var error := 1000 * (UncappedDiff(older, newer) * 0x1_0000_0000 - (newer - older) * 1000);
            -1001 * 0x1_0000_0000 < error < 0x1_0000_0000
  {
    DiffOfMicros(older, newer);
    MicrosTruncate(older);
    MicrosTruncate(newer);
    Floor(TotalMicros(newer) - TotalMicros(older), 1000);
  }

  /** It grows with the newer timestamp, and reads as the largest 32-bit number from 2^32 - 1
      milliseconds on. */
  lemma DiffIsMonotone(older: u64, newer: u64, later: u64)
    requires older <= newer <= later
    ensures NtpDiffMs(older, newer) <= NtpDiffMs(older, later)
    ensures NtpDiffMs(older, newer) == UINT32_MAX <==> TotalMicros(newer) - TotalMicros(older) >= UINT32_MAX * 1000
  {
    DiffOfMicros(older, newer);
    DiffOfMicros(older, later);
    DiffOfMicros(newer, later);
    DivideKeepsOrder(TotalMicros(newer) - TotalMicros(older), TotalMicros(later) - TotalMicros(older), 1000);
    Floor(TotalMicros(newer) - TotalMicros(older), 1000);
  }

  /** Timestamps in the wrong order within one second: zero if they share their microsecond,
      and the largest number otherwise. */
  lemma BackwardsWithinSecond(older: u64, newer: u64)
    requires newer < older && Seconds(newer) == Seconds(older)
    ensures NtpDiffMs(older, newer) == if Micros(newer) == Micros(older) then 0 else UINT32_MAX
  {
    DivideKeepsOrder(Fraction(newer) * 1000000, Fraction(older) * 1000000, 0x1_0000_0000);
    MicrosBound(older);
    var u: int := Micros(newer) - Micros(older);
    if u < 0 {
      DivModUnique(u, 0x1_0000_0000_0000_0000, -1, u + 0x1_0000_0000_0000_0000);
      Floor(u + 0x1_0000_0000_0000_0000, 1000);
    }
  }
}
