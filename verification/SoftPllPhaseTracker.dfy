/** Phase trackers (softpll/spll_ptracker.c) and their read-out (softpll/softpll_ng.c): averages of a
    phase that lives on a circle. */
module SoftPllPhaseTracker {
  import opened SoftPllControl

  const TURN := 0x4000     // 1 << HPLL_N
  const QUARTER := 0x1000

  predicate IsPhase(d: int) { 0 <= d < TURN }

  function Quadrant(d: int): (q: int)
    requires IsPhase(d)
    ensures 0 <= q <= 3
  {
    d / QUARTER
  }

  /** The table entry for a sample in quadrant `q` when the bin started in quadrant `first`. */
  function Adjustment(first: int, q: int): int {
    if first == 0 && q == 3 then -TURN else if first == 3 && q == 0 then TURN else 0
  }

  function Adjusted(first: int, d: int): int
    requires IsPhase(first) && IsPhase(d)
  {
    d + Adjustment(Quadrant(first), Quadrant(d))
  }

  predicate AllPhases(bin: seq<int>) { forall i :: 0 <= i < |bin| ==> IsPhase(bin[i]) }

  function AdjustedSum(bin: seq<int>): int
    requires bin != [] && AllPhases(bin)
  {
    if |bin| == 1 then bin[0] else AdjustedSum(bin[..|bin| - 1]) + Adjusted(bin[0], bin[|bin| - 1])
  }

  /** Division as C does it, towards zero. */
  function TruncDiv(a: int, b: int): int
    requires b > 0
  {
    if a >= 0 then a / b else -(-a / b)
  }

  /** The first step of spll_read_ptracker: into one turn. */
  function Normalised(phase: int): int {
    if phase < 0 then phase + TURN else if phase >= TURN then phase - TURN else phase
  }

  /** Distance on the circle is at most `d`. */
  predicate Near(x: int, y: int, d: int) {
    Abs(x - y) <= d || Abs(x - y - TURN) <= d || Abs(x - y + TURN) <= d
  }

  /** The place of `phase` on the line that the samples of a bin are adjusted to. */
  function Lifted(first: int, phase: int): int
    requires IsPhase(first) && IsPhase(phase)
  {
    if Quadrant(first) == 0 && phase >= TURN / 2 then phase - TURN
    else if Quadrant(first) == 3 && phase < TURN / 2 then phase + TURN
    else phase
  }

  lemma AdjustedNear(first: int, d: int, phase: int, spread: int)
    requires IsPhase(first) && IsPhase(d) && IsPhase(phase) && 0 <= spread <= TURN / 8
    requires Near(first, phase, spread) && Near(d, phase, spread)
    ensures Abs(Adjusted(first, d) - Lifted(first, phase)) <= spread
    ensures -QUARTER <= Adjusted(first, d) < TURN + QUARTER && Adjusted(first, first) == first
  {
  }

  lemma {:induction false} SumNear(bin: seq<int>, phase: int, spread: int)
    requires bin != [] && AllPhases(bin) && IsPhase(phase) && 0 <= spread <= TURN / 8
    requires forall i :: 0 <= i < |bin| ==> Near(bin[i], phase, spread)
    ensures |bin| * (Lifted(bin[0], phase) - spread) <= AdjustedSum(bin) <= |bin| * (Lifted(bin[0], phase) + spread)
    ensures |bin| * -QUARTER <= AdjustedSum(bin) <= |bin| * (TURN + QUARTER - 1)
  {
    hide Near, Adjusted, Lifted;
    var n := |bin|;
    AdjustedNear(bin[0], bin[n - 1], phase, spread);
    if n > 1 {
      SumNear(bin[..n - 1], phase, spread);
      Distribute(n, Lifted(bin[0], phase) - spread);
      Distribute(n, Lifted(bin[0], phase) + spread);
      Distribute(n, -QUARTER);
      Distribute(n, TURN + QUARTER - 1);
    } else {
      AdjustedNear(bin[0], bin[0], phase, spread);
    }
  }

  lemma Distribute(n: int, x: int)
    ensures n * x == (n - 1) * x + x
  {
  }

  lemma TruncBetween(a: int, n: int, lo: int, hi: int)
    requires n > 0 && n * lo <= a <= n * hi
    ensures lo <= TruncDiv(a, n) <= hi
  {
    var q := TruncDiv(a, n);
    TruncRange(a, n);
    hide TruncDiv;
    Next(n, q);
    Next(n, hi);
    Next(n, q - 1);
    if a >= 0 { MulLess(n, q, hi + 1); } else { MulLess(n, q - 1, hi); }
    MulLess(n, lo, q + 1);
  }

  lemma TruncRange(a: int, n: int)
    requires n > 0
    ensures var q := TruncDiv(a, n); if a >= 0 then n * q <= a < n * q + n else n * q - n < a <= n * q
  {
    var q := TruncDiv(a, n);
    if a >= 0 { assert a == n * (a / n) + a % n; } else { assert -a == n * (-a / n) + -a % n; }
  }

  lemma Next(n: int, x: int)
    ensures n * (x + 1) == n * x + n
  {
  }

  lemma MulLess(n: int, x: int, y: int)
    requires n > 0 && n * x < n * y
    ensures x < y
  {
  }

  predicate AllNear(bin: seq<int>, phase: int, spread: int) {
    forall i :: 0 <= i < |bin| ==> Near(bin[i], phase, spread)
  }

  /** The average of a bin, brought into one turn. */
  function Average(bin: seq<int>): int
    requires bin != [] && AllPhases(bin)
  {
    Normalised(TruncDiv(AdjustedSum(bin), |bin|))
  }

  /** Samples that all lie within an eighth of a turn of a phase average to within the same distance of
      it, also when they straddle the wrap point. */
  lemma AverageNear(bin: seq<int>, phase: int, spread: int)
    requires bin != [] && AllPhases(bin) && IsPhase(phase) && 0 <= spread <= TURN / 8
    requires AllNear(bin, phase, spread)
    ensures IsPhase(Average(bin)) && Near(Average(bin), phase, spread)
  {
    SumNear(bin, phase, spread);
    var n, sum := |bin|, AdjustedSum(bin);
    TruncBetween(sum, n, Lifted(bin[0], phase) - spread, Lifted(bin[0], phase) + spread);
    TruncBetween(sum, n, -QUARTER, TURN + QUARTER - 1);
    NormalisedNear(bin[0], TruncDiv(sum, n), phase, spread);
  }

  /** How far a sample is ahead of a phase on the circle, at most half a turn. */
  function Deviation(x: int, phase: int): int {
    var d := x - phase;
    if d < -(TURN / 2) then d + TURN else if d >= TURN / 2 then d - TURN else d
  }

  function Deviations(bin: seq<int>, phase: int): int {
    if bin == [] then 0 else Deviations(bin[..|bin| - 1], phase) + Deviation(bin[|bin| - 1], phase)
  }

  lemma AdjustedDeviates(first: int, d: int, phase: int, spread: int)
    requires IsPhase(first) && IsPhase(d) && IsPhase(phase) && 0 <= spread <= TURN / 8
    requires Near(first, phase, spread) && Near(d, phase, spread)
    ensures Adjusted(first, d) == Lifted(first, phase) + Deviation(d, phase)
    ensures first == Lifted(first, phase) + Deviation(first, phase)
  {
  }

  lemma {:induction false} SumDeviates(bin: seq<int>, phase: int, spread: int)
    requires bin != [] && AllPhases(bin) && IsPhase(phase) && 0 <= spread <= TURN / 8
    requires forall i :: 0 <= i < |bin| ==> Near(bin[i], phase, spread)
    ensures AdjustedSum(bin) == |bin| * Lifted(bin[0], phase) + Deviations(bin, phase)
  {
    hide Near, Adjusted, Lifted, Deviation;
    var n := |bin|;
    AdjustedDeviates(bin[0], bin[n - 1], phase, spread);
    if n > 1 {
      SumDeviates(bin[..n - 1], phase, spread);
      Distribute(n, Lifted(bin[0], phase));
    } else {
      assert bin[..0] == [] && Deviations([], phase) == 0;
    }
  }

  /** It is the mean on the circle: the average is ahead of the phase by the mean of what the samples are, less than one
      unit of rounding aside. */
  lemma AverageIsMean(bin: seq<int>, phase: int, spread: int)
    requires bin != [] && AllPhases(bin) && IsPhase(phase) && 0 <= spread <= TURN / 8
    requires AllNear(bin, phase, spread)
    ensures Abs(|bin| * Deviation(Average(bin), phase) - Deviations(bin, phase)) < |bin|
  {
    hide TruncDiv, Lifted, Deviation, Deviations, AdjustedSum, Near, Normalised;
    var n, sum, lifted := |bin|, AdjustedSum(bin), Lifted(bin[0], phase);
    SumNear(bin, phase, spread);
    SumDeviates(bin, phase, spread);
    TruncBetween(sum, n, lifted - spread, lifted + spread);
    TruncBetween(sum, n, -QUARTER, TURN + QUARTER - 1);
    NormalisedDeviates(bin[0], TruncDiv(sum, n), phase, spread);
    TruncatedMean(sum, n, lifted, Deviations(bin, phase));
  }

  lemma TruncatedMean(sum: int, n: int, base: int, rest: int)
    requires n > 0 && sum == n * base + rest
    ensures Abs(n * (TruncDiv(sum, n) - base) - rest) < n
  {
    TruncRange(sum, n);
    assert n * (TruncDiv(sum, n) - base) == n * TruncDiv(sum, n) - n * base;
  }

  lemma NormalisedDeviates(first: int, a: int, phase: int, spread: int)
    requires IsPhase(first) && IsPhase(phase) && Abs(a - Lifted(first, phase)) <= spread <= TURN / 8
    requires -QUARTER <= a < TURN + QUARTER
    ensures Deviation(Normalised(a), phase) == a - Lifted(first, phase)
  {
  }

  lemma NormalisedNear(first: int, a: int, phase: int, spread: int)
    requires IsPhase(first) && IsPhase(phase) && Abs(a - Lifted(first, phase)) <= spread
    requires -QUARTER <= a < TURN + QUARTER
    ensures IsPhase(Normalised(a)) && Near(Normalised(a), phase, spread)
  {
  }

  /** Every average is a phase, whatever the samples. */
  lemma {:induction false} SumInTurn(bin: seq<int>)
    requires bin != [] && AllPhases(bin)
    ensures |bin| * -QUARTER <= AdjustedSum(bin) <= |bin| * (TURN + QUARTER - 1)
  {
    var n := |bin|;
    if n > 1 {
      SumInTurn(bin[..n - 1]);
      Distribute(n, -QUARTER);
      Distribute(n, TURN + QUARTER - 1);
    }
  }

  lemma AverageIsPhase(bin: seq<int>)
    requires bin != [] && AllPhases(bin)
    ensures IsPhase(Average(bin))
  {
    SumInTurn(bin);
    TruncBetween(AdjustedSum(bin), |bin|, -QUARTER, TURN + QUARTER - 1);
  }

  /** Every bin a tracker can fill with samples within `spread` of a phase averages to within `spread` of it. */
  ghost predicate AveragesWell(spread: nat) {
    forall bin, phase :: |bin| >= 2 && AllPhases(bin) && IsPhase(phase) && AllNear(bin, phase, spread) ==>
                           Near(Average(bin), phase, spread)
  }

  /** Two samples to either side of a phase that average to the opposite side of the circle. */
  lemma OppositeAverage(spread: nat)
    requires TURN / 8 < spread < TURN / 2
    ensures var bin, phase := [QUARTER, TURN - 2], TURN / 8 - 1;
            AllPhases(bin) && IsPhase(phase) && AllNear(bin, phase, spread) && !Near(Average(bin), phase, spread)
  {
    var bin := [QUARTER, TURN - 2];
    assert bin[..1] == [QUARTER];
    assert AdjustedSum(bin) == QUARTER + TURN - 2;
  }

  /** The exact condition on the spread: an eighth of a turn. From half a turn on the statement says nothing, since
      no two phases are further apart than that. */
  lemma SpreadExact(spread: nat)
    ensures AveragesWell(spread) <==> spread <= TURN / 8 || spread >= TURN / 2
  {
    if spread <= TURN / 8 {
      forall bin, phase | |bin| >= 2 && AllPhases(bin) && IsPhase(phase) && AllNear(bin, phase, spread)
        ensures Near(Average(bin), phase, spread)
      {
        AverageNear(bin, phase, spread);
      }
    } else if spread >= TURN / 2 {
      forall bin, phase | |bin| >= 2 && AllPhases(bin) && IsPhase(phase)
        ensures Near(Average(bin), phase, spread)
      {
        AverageIsPhase(bin);
      }
    } else {
      OppositeAverage(spread);
    }
  }

  // ----- the reading -----

  /** With a divided reference clock the phase counts twice, modulo one turn. */
  function Doubled(phase: int): int { 2 * phase % TURN }

  /** Doubling on the circle doubles the distance. */
  lemma DoubledNear(x: int, y: int, d: nat)
    requires IsPhase(x) && IsPhase(y) && Near(x, y, d)
    ensures IsPhase(Doubled(x)) && Near(Doubled(x), Doubled(y), 2 * d)
    ensures Doubled(x) == 2 * x || Doubled(x) == 2 * x - TURN
  {
  }

  const PERIOD := 8000  // REF_CLOCK_PERIOD_PS

  /** to_picos: units of 1 / 2^14 of a clock period, rounded down to whole picoseconds. */
  function Picos(units: int): int { units * PERIOD / TURN }

  lemma PicosRoundsDown(units: int)
    ensures Picos(units) * TURN <= units * PERIOD < (Picos(units) + 1) * TURN
    ensures IsPhase(units) ==> 0 <= Picos(units) < PERIOD
  {
  }

  /** Picoseconds and a phase differ by at most d units on the circle, and less than one picosecond of rounding
      downwards. */
  predicate PicosNear(ps: int, phase: int, d: nat) {
    exists k: int :: -1 <= k <= 1 && PicosApart(ps, phase, d, k)
  }

  predicate PicosApart(ps: int, phase: int, d: nat, k: int) {
    -(d * PERIOD) - TURN < ps * TURN - (phase + k * TURN) * PERIOD <= d * PERIOD
  }

  /** What is read of a bin of samples near a true phase, for both settings of the clock divider. */
  lemma ReadNear(bin: seq<int>, phase: int, spread: nat, divided: bool)
    requires bin != [] && AllPhases(bin) && IsPhase(phase) && spread <= TURN / 8 && AllNear(bin, phase, spread)
    ensures var x := Average(bin);
            if divided then PicosNear(Picos(Doubled(x)), Doubled(phase), 2 * spread)
            else PicosNear(Picos(x), phase, spread)
  {
    hide AllNear, Average, Near;
    AverageNear(bin, phase, spread);
    var x := Average(bin);
    if divided {
      DoubledNear(x, phase, spread);
      InPicos(Doubled(x), Doubled(phase), 2 * spread);
    } else {
      InPicos(x, phase, spread);
    }
  }

  lemma InPicos(x: int, phase: int, d: nat)
    requires Near(x, phase, d)
    ensures PicosNear(Picos(x), phase, d)
  {
    PicosRoundsDown(x);
    var k := if Abs(x - phase) <= d then 0 else if Abs(x - phase - TURN) <= d then 1 else -1;
    assert PicosApart(Picos(x), phase, d, k);
  }

  class PhaseTracker {
    const nAvg: nat
    var enabled: bool
    var tagRef: int
    var acc: int
    var avgCount: nat
    var preserveSign: int
    var phaseVal: int
    var ready: bool
    ghost var bin: seq<int>

    /** ptracker_init */
    constructor (nAvg: nat)
      requires nAvg >= 2
      ensures Valid() && !enabled && this.nAvg == nAvg
    {
      this.nAvg := nAvg;
      enabled, ready, acc, avgCount, preserveSign, phaseVal, tagRef := false, false, 0, 0, 0, 0, -1;
      bin := [];
    }

    ghost predicate Valid()
      reads this
    {
      && nAvg >= 2 && avgCount == |bin| < nAvg && AllPhases(bin)
      && (bin != [] ==> acc == AdjustedSum(bin) && preserveSign == Quadrant(bin[0]) * 4)
    }

    /** ptracker_start */
    method Start()
      requires Valid()
      modifies this
      ensures Valid() && enabled && !ready && bin == [] && tagRef == old(tagRef)
    {
      preserveSign, enabled, ready, acc, avgCount := 0, true, false, 0, 0;
      bin := [];
    }

    /** ptrackers_update for this tracker's channel, or for the reference channel. A full bin is
        averaged and a new one begun. */
    method Update(tag: int, fromReference: bool)
      requires Valid()
      modifies this
      ensures Valid() && enabled == old(enabled)
      ensures fromReference ==> tagRef == tag && bin == old(bin) && phaseVal == old(phaseVal) && ready == old(ready)
      ensures !fromReference ==> tagRef == old(tagRef)
      ensures !fromReference && !enabled ==> bin == old(bin) && phaseVal == old(phaseVal) && ready == old(ready)
      ensures !fromReference && enabled ==>
                var all := old(bin) + [(tagRef - tag) % TURN];
                if |all| < nAvg then bin == all && phaseVal == old(phaseVal) && ready == old(ready)
                else bin == [] && AllPhases(all) && phaseVal == TruncDiv(AdjustedSum(all), nAvg) && ready
    {
      if fromReference {
        tagRef := tag;
        return;
      }
      if !enabled { return; }
      var delta := (tagRef - tag) % TURN;
      var index := delta / QUARTER;
      ghost var all := bin + [delta];
      assert all[..|all| - 1] == bin;
      bin := all;
      if avgCount == 0 {
        preserveSign := index * 4;
        acc := delta;
        avgCount := 1;
      } else {
        acc := acc + delta + TableEntry(index + preserveSign);
        avgCount := avgCount + 1;
        if avgCount == nAvg {
          phaseVal := TruncDiv(acc, nAvg);
          ready := true;
          acc, avgCount, bin := 0, 0, [];
        }
      }
    }

    /** spll_read_ptracker: the phase of the last full bin in picoseconds, and whether there has been one. */
    method Read(divided: bool) returns (phasePs: int, isReady: bool)
      ensures phasePs == Picos(if divided then Doubled(Normalised(phaseVal)) else Normalised(phaseVal))
      ensures isReady == ready
    {
      var phase := phaseVal;
      if phase < 0 { phase := phase + TURN; }
      else if phase >= TURN { phase := phase - TURN; }
      if divided { phase := phase * 2 % TURN; }
      phasePs := phase * PERIOD / TURN;
      isReady := ready;
    }
  }

  /** adj_tab */
  function TableEntry(k: int): (a: int)
    requires 0 <= k < 16
    ensures a == Adjustment(k / 4, k % 4)
  {
    [0, 0, 0, -TURN, 0, 0, 0, 0, 0, 0, 0, 0, TURN, 0, 0, 0][k]
  }
}
